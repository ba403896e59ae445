/**
 The size catalogue: sizes are created and updated behind the overlap guard. In which reachable
 catalogues matching hardware finds at most one size, and which sizes escape the guard.
 Whether a glob pattern is well formed is a parameter; one call validates and writes atomically.
 */
module SizeCatalogue {
  import opened Wrappers
  import opened Sizes

  type Patterns = string -> bool

  datatype CatalogueError = InvalidConstraints | OverlapsWith(id: string) | Conflict | Missing

  datatype Op =
    | Create(size: Size)
    | Update(id: string, constraints: Option<seq<Constraint>>)
    | Delete(id: string)

  predicate ValidConstraint(wellFormed: Patterns, c: Constraint) {
    && c.min <= c.max
    && wellFormed(c.identifier)
    && (c.typ.Gpu? ==> c.identifier != "")
    && (c.typ.Memory? ==> c.identifier == "")
  }

  predicate ValidConstraints(wellFormed: Patterns, cs: seq<Constraint>) {
    && (forall c | c in cs :: ValidConstraint(wellFormed, c))
    && |OfType(cs, Memory)| <= 1
    && |OfType(cs, Cores)| <= 1
  }

  ghost predicate UniqueIds(sizes: seq<Size>) {
    forall i, j :: 0 <= i < j < |sizes| ==> sizes[i].id != sizes[j].id
  }

  ghost predicate NoneOverlap(sizes: seq<Size>) {
    forall i, j :: 0 <= i < j < |sizes| ==> !SizesOverlap(sizes[i], sizes[j])
  }

  ghost predicate Clean(wellFormed: Patterns, sizes: seq<Size>) {
    && UniqueIds(sizes)
    && NoneOverlap(sizes)
    && forall i :: 0 <= i < |sizes| ==> ValidConstraints(wellFormed, sizes[i].constraints)
  }

  function IndexOf(sizes: seq<Size>, id: string): (i: nat)
    ensures i <= |sizes|
    ensures i < |sizes| ==> sizes[i].id == id
    ensures forall j :: 0 <= j < i ==> sizes[j].id != id
  {
    if sizes == [] then 0
    else if sizes[0].id == id then 0
    else 1 + IndexOf(sizes[1..], id)
  }

  ghost predicate Acceptable(wellFormed: Patterns, size: Size, sizes: seq<Size>) {
    ValidConstraints(wellFormed, size.constraints) && !Blocked(size, sizes)
  }

  /** The catalogue after one request; a refused request changes nothing. */
  ghost function Apply(wellFormed: Patterns, sizes: seq<Size>, op: Op): seq<Size> {
    match op
    case Create(size) =>
      if Acceptable(wellFormed, size, sizes) && IndexOf(sizes, size.id) == |sizes| then sizes + [size] else sizes
    case Update(id, constraints) =>
      var i := IndexOf(sizes, id);
      if i < |sizes| && constraints.Some? && Acceptable(wellFormed, Size(id, constraints.value), sizes)
      then sizes[i := Size(id, constraints.value)] else sizes
    case Delete(id) =>
      var i := IndexOf(sizes, id);
      if i < |sizes| then sizes[..i] + sizes[i + 1..] else sizes
  }

  lemma OneMore(cs: seq<Constraint>, i: nat, t: ConstraintType)
    requires i < |cs|
    ensures |OfType(cs[..i + 1], t)| == |OfType(cs[..i], t)| + if cs[i].typ == t then 1 else 0
  {
    var prefix := cs[..i + 1];
    assert prefix[..|prefix| - 1] == cs[..i];
  }

  method ValidateSizeConstraints(wellFormed: Patterns, cs: seq<Constraint>) returns (ok: bool)
    ensures ok <==> ValidConstraints(wellFormed, cs)
  {
    ok := true;
    var memory, cores := 0, 0;
    for i := 0 to |cs|
      invariant memory == |OfType(cs[..i], Memory)| && cores == |OfType(cs[..i], Cores)|
      invariant ok <==> memory <= 1 && cores <= 1 && forall j :: 0 <= j < i ==> ValidConstraint(wellFormed, cs[j])
    {
      OneMore(cs, i, Memory);
      OneMore(cs, i, Cores);
      if !ValidConstraint(wellFormed, cs[i]) {
        ok := false;
      }
      match cs[i].typ {
        case Memory =>
          memory := memory + 1;
          if memory > 1 {
            ok := false;
          }
        case Cores =>
          cores := cores + 1;
          if cores > 1 {
            ok := false;
          }
        case _ =>
      }
    }
    assert cs[..|cs|] == cs;
  }

  class Catalogue {
    const wellFormed: Patterns
    var sizes: seq<Size>

    constructor (wellFormed: Patterns)
      ensures sizes == [] && this.wellFormed == wellFormed
    {
      this.wellFormed := wellFormed;
      sizes := [];
    }

    method Validate(size: Size) returns (error: Option<CatalogueError>)
      ensures error.None? <==> Acceptable(wellFormed, size, sizes)
    {
      var valid := ValidateSizeConstraints(wellFormed, size.constraints);
      if !valid {
        return Some(InvalidConstraints);
      }
      var overlapping := Overlaps(size, sizes);
      error := if overlapping.Some? then Some(OverlapsWith(overlapping.value.id)) else None;
    }

    method CreateSize(size: Size) returns (error: Option<CatalogueError>)
      modifies this
      ensures sizes == Apply(wellFormed, old(sizes), Create(size))
      ensures error.None? <==> sizes != old(sizes)
    {
      error := Validate(size);
      if error.None? {
        if IndexOf(sizes, size.id) < |sizes| {
          return Some(Conflict);
        }
        sizes := sizes + [size];
      }
    }

    method UpdateSize(id: string, constraints: Option<seq<Constraint>>) returns (error: Option<CatalogueError>)
      modifies this
      ensures sizes == Apply(wellFormed, old(sizes), Update(id, constraints))
      ensures error.None? <==>
                && IndexOf(old(sizes), id) < |old(sizes)|
                && (constraints.Some? ==> Acceptable(wellFormed, Size(id, constraints.value), old(sizes)))
    {
      var i := IndexOf(sizes, id);
      if i == |sizes| {
        return Some(Missing);
      }
      if constraints.Some? {
        error := Validate(Size(id, constraints.value));
        if error.Some? {
          return;
        }
        sizes := sizes[i := Size(id, constraints.value)];
      }
      error := None;
    }

    method DeleteSize(id: string) returns (error: Option<CatalogueError>)
      modifies this
      ensures sizes == Apply(wellFormed, old(sizes), Delete(id))
      ensures error.None? <==> IndexOf(old(sizes), id) < |old(sizes)|
    {
      var i := IndexOf(sizes, id);
      if i == |sizes| {
        return Some(Missing);
      }
      sizes := sizes[..i] + sizes[i + 1..];
      error := None;
    }
  }

  // ---------- every reachable catalogue ----------

  ghost function RunOps(wellFormed: Patterns, ops: seq<Op>): seq<Size> {
    if ops == [] then [] else Apply(wellFormed, RunOps(wellFormed, ops[..|ops| - 1]), ops[|ops| - 1])
  }

  lemma AppendKeepsClean(wellFormed: Patterns, sizes: seq<Size>, size: Size)
    requires Clean(wellFormed, sizes) && Acceptable(wellFormed, size, sizes) && IndexOf(sizes, size.id) == |sizes|
    ensures Clean(wellFormed, sizes + [size])
  {
    forall i | 0 <= i < |sizes| ensures !SizesOverlap(sizes[i], size) {
      OverlapIsSymmetric(size, sizes[i]);
    }
  }

  lemma ReplaceKeepsClean(wellFormed: Patterns, sizes: seq<Size>, i: nat, size: Size)
    requires Clean(wellFormed, sizes) && Acceptable(wellFormed, size, sizes)
    requires i < |sizes| && sizes[i].id == size.id
    ensures Clean(wellFormed, sizes[i := size])
  {
    forall j | 0 <= j < |sizes| && j != i ensures !SizesOverlap(sizes[j], size) && !SizesOverlap(size, sizes[j]) {
      OverlapIsSymmetric(size, sizes[j]);
    }
  }

  lemma RemoveKeepsClean(wellFormed: Patterns, sizes: seq<Size>, i: nat)
    requires Clean(wellFormed, sizes) && i < |sizes|
    ensures Clean(wellFormed, sizes[..i] + sizes[i + 1..])
  {
    var kept := sizes[..i] + sizes[i + 1..];
    forall j, k | 0 <= j < k < |kept| ensures kept[j].id != kept[k].id && !SizesOverlap(kept[j], kept[k]) {
      var j', k' := if j < i then j else j + 1, if k < i then k else k + 1;
      assert kept[j] == sizes[j'] && kept[k] == sizes[k'] && j' < k';
    }
  }

  lemma ApplyKeepsClean(wellFormed: Patterns, sizes: seq<Size>, op: Op)
    requires Clean(wellFormed, sizes)
    ensures Clean(wellFormed, Apply(wellFormed, sizes, op))
  {
    match op
    case Create(size) =>
      if Acceptable(wellFormed, size, sizes) && IndexOf(sizes, size.id) == |sizes| {
        AppendKeepsClean(wellFormed, sizes, size);
      }
    case Update(id, constraints) =>
      var i := IndexOf(sizes, id);
      if i < |sizes| && constraints.Some? && Acceptable(wellFormed, Size(id, constraints.value), sizes) {
        ReplaceKeepsClean(wellFormed, sizes, i, Size(id, constraints.value));
      }
    case Delete(id) =>
      var i := IndexOf(sizes, id);
      if i < |sizes| {
        RemoveKeepsClean(wellFormed, sizes, i);
      }
  }

  lemma {:induction false} ReachableIsClean(wellFormed: Patterns, ops: seq<Op>)
    ensures Clean(wellFormed, RunOps(wellFormed, ops))
  {
    if ops != [] {
      ReachableIsClean(wellFormed, ops[..|ops| - 1]);
      ApplyKeepsClean(wellFormed, RunOps(wellFormed, ops[..|ops| - 1]), ops[|ops| - 1]);
    }
  }

  lemma {:induction false} MatchingHasPosition(glob: Glob, sizes: seq<Size>, hw: Hardware)
    requires Matching(glob, sizes, hw) != []
    ensures exists i :: 0 <= i < |sizes| && SizeMatches(glob, sizes[i], hw)
  {
    var front := sizes[..|sizes| - 1];
    if SizeMatches(glob, sizes[|sizes| - 1], hw) {
    } else {
      MatchingHasPosition(glob, front, hw);
      var i :| 0 <= i < |front| && SizeMatches(glob, front[i], hw);
      assert sizes[i] == front[i];
    }
  }

  lemma {:induction false} MatchingHasTwoPositions(glob: Glob, sizes: seq<Size>, hw: Hardware)
    requires |Matching(glob, sizes, hw)| >= 2
    ensures exists i, j :: 0 <= i < j < |sizes| && SizeMatches(glob, sizes[i], hw) && SizeMatches(glob, sizes[j], hw)
  {
    var front := sizes[..|sizes| - 1];
    if SizeMatches(glob, sizes[|sizes| - 1], hw) {
      MatchingHasPosition(glob, front, hw);
      var i :| 0 <= i < |front| && SizeMatches(glob, front[i], hw);
      assert sizes[i] == front[i];
    } else {
      MatchingHasTwoPositions(glob, front, hw);
      var i, j :| 0 <= i < j < |front| && SizeMatches(glob, front[i], hw) && SizeMatches(glob, front[j], hw);
      assert sizes[i] == front[i] && sizes[j] == front[j];
    }
  }

  lemma {:induction false} MatchingOfPosition(glob: Glob, sizes: seq<Size>, hw: Hardware, i: nat)
    requires i < |sizes| && SizeMatches(glob, sizes[i], hw)
    ensures |Matching(glob, sizes, hw)| >= 1
  {
    if i < |sizes| - 1 {
      MatchingOfPosition(glob, sizes[..|sizes| - 1], hw, i);
    }
  }

  lemma {:induction false} MatchingOfTwoPositions(glob: Glob, sizes: seq<Size>, hw: Hardware, i: nat, j: nat)
    requires i < j < |sizes| && SizeMatches(glob, sizes[i], hw) && SizeMatches(glob, sizes[j], hw)
    ensures |Matching(glob, sizes, hw)| >= 2
  {
    if j < |sizes| - 1 {
      MatchingOfTwoPositions(glob, sizes[..|sizes| - 1], hw, i, j);
    } else {
      MatchingOfPosition(glob, sizes[..|sizes| - 1], hw, i);
    }
  }

  ghost predicate AllComparable(sizes: seq<Size>) {
    forall i, j :: 0 <= i < j < |sizes| ==> Comparable(sizes[i], sizes[j])
  }

  ghost predicate NoneCompatible(glob: Glob, sizes: seq<Size>) {
    forall i, j :: 0 <= i < j < |sizes| ==> !Compatible(glob, sizes[i], sizes[j])
  }

  ghost predicate NoneMayCollide(glob: Glob, sizes: seq<Size>) {
    forall i, j :: 0 <= i < j < |sizes| ==> !MayCollide(glob, sizes[i], sizes[j])
  }

  ghost predicate Unambiguous(glob: Glob, sizes: seq<Size>) {
    forall hw :: |Matching(glob, sizes, hw)| <= 1
  }

  /** Every two sizes that match the same hardware look different to the guard: all others it has kept out. */
  lemma OnlyDifferentSizesMatch(wellFormed: Patterns, glob: Glob, ops: seq<Op>, hw: Hardware, i: nat, j: nat)
    requires var sizes := RunOps(wellFormed, ops);
             i < j < |sizes| && SizeMatches(glob, sizes[i], hw) && SizeMatches(glob, sizes[j], hw)
    ensures var sizes := RunOps(wellFormed, ops);
            LooksDifferent(sizes[i], sizes[j]) && MayCollide(glob, sizes[i], sizes[j])
  {
    var sizes := RunOps(wellFormed, ops);
    ReachableIsClean(wellFormed, ops);
    hide RunOps, SizeMatches, MayCollide, LooksDifferent, SizesOverlap;
    MatchingSizesOverlap(glob, sizes[i], sizes[j], hw);
    CollisionMeansMayCollide(glob, sizes[i], sizes[j], hw);
  }

  /**
   After any run of guarded requests hardware never matches two sizes, if no two of them may collide,
   and only if no two are compatible. Where no size has several identifiers for a type that another
   one constrains too, the two conditions are the same.
   */
  lemma ReachableCatalogueIsUnambiguous(wellFormed: Patterns, glob: Glob, ops: seq<Op>)
    ensures var sizes := RunOps(wellFormed, ops);
            && (NoneMayCollide(glob, sizes) ==> Unambiguous(glob, sizes))
            && (Unambiguous(glob, sizes) ==> NoneCompatible(glob, sizes))
            && (AllComparable(sizes) ==> (NoneCompatible(glob, sizes) ==> NoneMayCollide(glob, sizes)))
  {
    var sizes := RunOps(wellFormed, ops);
    hide RunOps, Matching, SizeMatches, Compatible, MayCollide, Comparable;
    forall hw | NoneMayCollide(glob, sizes) ensures |Matching(glob, sizes, hw)| <= 1 {
      if |Matching(glob, sizes, hw)| >= 2 {
        MatchingHasTwoPositions(glob, sizes, hw);
        var i, j :| 0 <= i < j < |sizes| && SizeMatches(glob, sizes[i], hw) && SizeMatches(glob, sizes[j], hw);
        CollisionMeansMayCollide(glob, sizes[i], sizes[j], hw);
        assert false;
      }
    }
    forall i, j | 0 <= i < j < |sizes|
      ensures Unambiguous(glob, sizes) ==> !Compatible(glob, sizes[i], sizes[j])
      ensures Comparable(sizes[i], sizes[j]) ==>
                (MayCollide(glob, sizes[i], sizes[j]) ==> Compatible(glob, sizes[i], sizes[j]))
    {
      CollisionExactly(glob, sizes[i], sizes[j]);
      if Compatible(glob, sizes[i], sizes[j]) {
        var hw :| SizeMatches(glob, sizes[i], hw) && SizeMatches(glob, sizes[j], hw);
        MatchingOfTwoPositions(glob, sizes, hw, i, j);
      }
    }
  }

  /** For a size with two identifiers for one type the guard is void: among constrained sizes it always passes. */
  lemma GuardIsVoid(wellFormed: Patterns, size: Size, sizes: seq<Size>, t: ConstraintType)
    requires !OneIdentifier(size.constraints, t) && forall so | so in sizes :: so.constraints != []
    ensures Acceptable(wellFormed, size, sizes) <==> ValidConstraints(wellFormed, size.constraints)
  {
    forall i | 0 <= i < |sizes| ensures !SizesOverlap(size, sizes[i]) {
      assert sizes[i] in sizes;
      TwoIdentifiersNeverOverlap(size, sizes[i], t);
    }
  }

  // ---------- sizes that escape the guard ----------

  /** A size that accepts zero graphics cards and one that does not mention them pass the guard. */
  lemma OptionalTypeIsAmbiguous(wellFormed: Patterns, glob: Glob)
    requires wellFormed("") && wellFormed("a")
    ensures var memory := Constraint(Memory, 1, 1, "");
            var s, so := Size("s", [memory]), Size("so", [memory, Constraint(Gpu, 0, 1, "a")]);
            var sizes := RunOps(wellFormed, [Create(s), Create(so)]);
            && sizes == [s, so]
            && !SizesOverlap(s, so)
            && Matching(glob, sizes, Hardware(1, [], [], [])) == [s, so]
  {
    var memory := Constraint(Memory, 1, 1, "");
    var gpu := Constraint(Gpu, 0, 1, "a");
    var s, so := Size("s", [memory]), Size("so", [memory, gpu]);
    var hw := Hardware(1, [], [], []);
    assert gpu in so.constraints && Mentions(so, Gpu) && !Mentions(s, Gpu);
    ValidExample(wellFormed, memory, gpu);
    TwoCreates(wellFormed, s, so);
    MemoryIsCovered(glob, s, hw, memory);
    MemoryIsCovered(glob, so, hw, memory);
    MatchingOfTwo(glob, s, so, hw);
  }

  /** Two identifiers that admit the same model pass the guard as well. */
  lemma DifferentIdentifiersAreAmbiguous(wellFormed: Patterns, glob: Glob)
    requires wellFormed("") && wellFormed("a*") && glob("a*", "ab")
    ensures var memory := Constraint(Memory, 1, 1, "");
            var s := Size("s", [memory, Constraint(Storage, 1, 1, "")]);
            var so := Size("so", [memory, Constraint(Storage, 1, 1, "a*")]);
            var sizes := RunOps(wellFormed, [Create(s), Create(so)]);
            && sizes == [s, so]
            && !SizesOverlap(s, so)
            && Matching(glob, sizes, Hardware(1, [Disk("ab", 1)], [], [])) == [s, so]
  {
    var memory, c, d := Constraint(Memory, 1, 1, ""), Constraint(Storage, 1, 1, ""), Constraint(Storage, 1, 1, "a*");
    var s, so := Size("s", [memory, c]), Size("so", [memory, d]);
    hide RunOps, Matching, SizesOverlap, ConstraintsOverlap;
    TwoIdentifiersEscape(wellFormed, glob, s, so, memory, c, d, Hardware(1, [Disk("ab", 1)], [], []));
  }

  lemma TwoIdentifiersEscape(wellFormed: Patterns, glob: Glob, s: Size, so: Size,
                             memory: Constraint, c: Constraint, d: Constraint, hw: Hardware)
    requires s == Size("s", [memory, c]) && so == Size("so", [memory, d])
    requires ValidConstraint(wellFormed, memory) && ValidConstraint(wellFormed, c) && ValidConstraint(wellFormed, d)
    requires memory.typ.Memory? && c.typ.Storage? && d.typ.Storage? && c.identifier != d.identifier
    requires InRange(memory, hw.memory) && |hw.disks| == 1 && hw.cpus == [] && hw.gpus == []
    requires InRange(c, hw.disks[0].size) && Admits(glob, c.identifier, hw.disks[0].name)
    requires InRange(d, hw.disks[0].size) && Admits(glob, d.identifier, hw.disks[0].name)
    ensures RunOps(wellFormed, [Create(s), Create(so)]) == [s, so]
    ensures !SizesOverlap(s, so) && Matching(glob, [s, so], hw) == [s, so]
  {
    hide RunOps, Matching, SizeMatches, ValidConstraints;
    assert c == s.constraints[1] && d == so.constraints[1] && !ConstraintsOverlap(d, c);
    ValidExample(wellFormed, memory, c);
    ValidExample(wellFormed, memory, d);
    TwoCreates(wellFormed, s, so);
    OneDiskMatches(glob, s, memory, c, hw);
    OneDiskMatches(glob, so, memory, d, hw);
    MatchingOfTwo(glob, s, so, hw);
  }

  predicate OverlapsItself(s: Size) {
    forall c, d | c in s.constraints && d in s.constraints && c.typ == d.typ :: ConstraintsOverlap(c, d)
  }

  /** The catalogue takes the same constraints twice exactly when two of them, of one type, do not overlap. */
  lemma CopyIsAcceptedExactly(wellFormed: Patterns, s: Size, id: string)
    requires id != s.id && ValidConstraints(wellFormed, s.constraints) && s.constraints != []
    ensures RunOps(wellFormed, [Create(s), Create(s.(id := id))]) == [s, s.(id := id)] <==> !OverlapsItself(s)
  {
    var copy := s.(id := id);
    assert SizesOverlap(copy, s) <==> OverlapsItself(s);
    if OverlapsItself(s) {
      ReachableIsClean(wellFormed, [Create(s), Create(copy)]);
      assert SizesOverlap(s, copy);
      assert SizesOverlap([s, copy][0], [s, copy][1]);
    } else {
      TwoCreates(wellFormed, s, copy);
    }
  }

  /** Even identical constraints pass the guard, if two of them are about different models of one type. */
  lemma IdenticalSizesAreAmbiguous(wellFormed: Patterns, glob: Glob)
    requires wellFormed("") && wellFormed("a*") && wellFormed("b*")
    requires glob("a*", "ab") && glob("b*", "bb") && !glob("a*", "bb") && !glob("b*", "ab")
    ensures var s := Size("s",
            [Constraint(Memory, 1, 1, ""), Constraint(Storage, 1, 1, "a*"), Constraint(Storage, 1, 1, "b*")]);
            var sizes := RunOps(wellFormed, [Create(s), Create(s.(id := "so"))]);
            && sizes == [s, s.(id := "so")]
            && Matching(glob, sizes, Hardware(1, [Disk("ab", 1), Disk("bb", 1)], [], [])) == sizes
  {
    var memory, a, b := Constraint(Memory, 1, 1, ""), Constraint(Storage, 1, 1, "a*"), Constraint(Storage, 1, 1, "b*");
    var s := Size("s", [memory, a, b]);
    assert a == s.constraints[1] && b == s.constraints[2] && !ConstraintsOverlap(a, b);
    ThreeAreValid(wellFormed, memory, a, b);
    CopyIsAcceptedExactly(wellFormed, s, "so");
    TwoDisksMatch(glob, s, memory, a, b);
    TwoDisksMatch(glob, s.(id := "so"), memory, a, b);
    MatchingOfTwo(glob, s, s.(id := "so"), Hardware(1, [Disk("ab", 1), Disk("bb", 1)], [], []));
  }

  lemma ThreeAreValid(wellFormed: Patterns, memory: Constraint, a: Constraint, b: Constraint)
    requires ValidConstraint(wellFormed, memory) && ValidConstraint(wellFormed, a) && ValidConstraint(wellFormed, b)
    requires memory.typ.Memory? && a.typ.Storage? && b.typ.Storage?
    ensures ValidConstraints(wellFormed, [memory, a, b])
  {
    ValidExample(wellFormed, memory, a);
    assert [memory, a, b][..2] == [memory, a];
  }

  lemma TotalOfTwo(glob: Glob, identifier: string, parts: seq<Part>)
    requires |parts| == 2 && parts[0].count == parts[1].count == 1
    ensures Total(glob, identifier, parts) ==
            (if Admits(glob, identifier, parts[0].model) then 1 else 0) +
              (if Admits(glob, identifier, parts[1].model) then 1 else 0)
  {
    var front := parts[..1];
    assert front[..0] == [] && Total(glob, identifier, []) == 0;
    assert Total(glob, identifier, front) == if Admits(glob, identifier, parts[0].model) then 1 else 0;
  }

  lemma TwoDisksMatch(glob: Glob, s: Size, memory: Constraint, a: Constraint, b: Constraint)
    requires s.constraints == [memory, a, b] && memory == Constraint(Memory, 1, 1, "")
    requires a == Constraint(Storage, 1, 1, "a*") && b == Constraint(Storage, 1, 1, "b*")
    requires glob("a*", "ab") && glob("b*", "bb") && !glob("a*", "bb") && !glob("b*", "ab")
    ensures SizeMatches(glob, s, Hardware(1, [Disk("ab", 1), Disk("bb", 1)], [], []))
  {
    var hw := Hardware(1, [Disk("ab", 1), Disk("bb", 1)], [], []);
    var parts := [Part("ab", 1), Part("bb", 1)];
    assert Parts(hw, Storage) == parts;
    TotalOfTwo(glob, "a*", parts);
    TotalOfTwo(glob, "b*", parts);
    assert memory == s.constraints[0] && a == s.constraints[1] && b == s.constraints[2];
    MemoryIsCovered(glob, s, hw, memory);
    OfTypeHolds(s.constraints, Storage);
    var cs := OfType(s.constraints, Storage);
    assert a in cs && b in cs;
    assert Covered(glob, cs, parts);
  }

  lemma ValidExample(wellFormed: Patterns, memory: Constraint, c: Constraint)
    requires ValidConstraint(wellFormed, memory) && ValidConstraint(wellFormed, c)
    requires memory.typ.Memory? && (c.typ.Storage? || c.typ.Gpu?)
    ensures ValidConstraints(wellFormed, [memory]) && ValidConstraints(wellFormed, [memory, c])
  {
    assert [memory, c][..1] == [memory] && [memory][..0] == [];
  }

  lemma MemoryIsCovered(glob: Glob, s: Size, hw: Hardware, c: Constraint)
    requires c in s.constraints && c.typ.Memory? && c.identifier == "" && InRange(c, hw.memory)
    ensures TypeCovered(glob, s.constraints, Memory, hw)
  {
    assert Parts(hw, Memory)[..0] == [];
    OfTypeHolds(s.constraints, Memory);
    CoveredByOne(glob, OfType(s.constraints, Memory), Parts(hw, Memory), c);
  }

  lemma StorageIsCovered(glob: Glob, s: Size, hw: Hardware, c: Constraint)
    requires c in s.constraints && c.typ.Storage? && |hw.disks| == 1 && InRange(c, hw.disks[0].size)
    requires Admits(glob, c.identifier, hw.disks[0].name)
    ensures TypeCovered(glob, s.constraints, Storage, hw) && Met(glob, c, hw)
  {
    assert Parts(hw, Storage) == [Part(hw.disks[0].name, hw.disks[0].size)];
    assert Parts(hw, Storage)[..0] == [];
    OfTypeHolds(s.constraints, Storage);
    CoveredByOne(glob, OfType(s.constraints, Storage), Parts(hw, Storage), c);
  }

  lemma OneDiskMatches(glob: Glob, s: Size, memory: Constraint, c: Constraint, hw: Hardware)
    requires s.constraints == [memory, c] && memory.typ.Memory? && memory.identifier == "" && c.typ.Storage?
    requires InRange(memory, hw.memory) && |hw.disks| == 1 && hw.cpus == [] && hw.gpus == []
    requires InRange(c, hw.disks[0].size) && Admits(glob, c.identifier, hw.disks[0].name)
    ensures SizeMatches(glob, s, hw)
  {
    assert s.constraints[0] in s.constraints && s.constraints[1] in s.constraints;
    MemoryIsCovered(glob, s, hw, memory);
    StorageIsCovered(glob, s, hw, c);
  }

  lemma MatchingOfTwo(glob: Glob, s: Size, so: Size, hw: Hardware)
    requires SizeMatches(glob, s, hw) && SizeMatches(glob, so, hw)
    ensures Matching(glob, [s, so], hw) == [s, so]
  {
    assert [s, so][..1] == [s] && [s][..0] == [];
    assert Matching(glob, [s], hw) == [s];
  }

  lemma TwoCreates(wellFormed: Patterns, s: Size, so: Size)
    requires s.id != so.id && !SizesOverlap(so, s)
    requires ValidConstraints(wellFormed, s.constraints) && ValidConstraints(wellFormed, so.constraints)
    ensures RunOps(wellFormed, [Create(s), Create(so)]) == [s, so]
  {
    var ops := [Create(s), Create(so)];
    assert ops[..1] == [Create(s)] && ops[..1][..0] == [];
    assert RunOps(wellFormed, ops[..1]) == [s];
  }
}
