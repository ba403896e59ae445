/**
 Normalising requested permissions: one entry per visibility and subject, with sorted methods.
 Strings are compared character by character.
 */
module Compaction {
  import opened Wrappers
  import opened Ordering
  import opened TokenPermissions

  datatype Scope =
    | Admin | Infra | Machine(uuid: string) | Project(project: string) | Public | Self | Tenant(login: string)

  /** A permission entry; the visibility may be missing. */
  datatype Entry = Unset | Entry(scope: Scope, methods: seq<string>)

  function SubjectOf(scope: Scope): string {
    match scope
    case Machine(uuid) => uuid
    case Project(project) => project
    case Tenant(login) => login
    case _ => ""
  }

  // ---------- sorting ----------

  predicate StrictlySorted(s: seq<string>) {
    forall i, j :: 0 <= i < j < |s| ==> Less(s[i], s[j])
  }

  /** lo.Uniq: the first occurrence of every element. */
  method Uniq(s: seq<string>) returns (r: seq<string>)
    ensures Elements(r) == Elements(s)
    ensures SortedBy(s, Identity) ==> StrictlySorted(r)
  {
    r := [];
    for i := 0 to |s|
      invariant Elements(r) == Elements(s[..i])
      invariant SortedBy(s, Identity) ==> StrictlySorted(r)
    {
      assert s[..i + 1] == s[..i] + [s[i]];
      assert Elements(s[..i + 1]) == Elements(s[..i]) + {s[i]};
      assert Elements(r + [s[i]]) == Elements(r) + {s[i]};
      if s[i] !in r {
        forall k | 0 <= k < |r| ensures SortedBy(s, Identity) ==> Less(r[k], s[i]) {
          assert r[k] in Elements(r);
          assert r[k] in s[..i];
        }
        r := r + [s[i]];
      }
    }
    assert s[..|s|] == s;
  }

  /** The one strictly sorted list of a set of strings. */
  method SortUniq(s: seq<string>) returns (r: seq<string>)
    ensures StrictlySorted(r) && Elements(r) == Elements(s)
  {
    SortIsSorted(s, Identity);
    var sorted := Sort(s, Identity);
    r := Uniq(sorted);
    SameMultisetSameElements(sorted, s);
  }

  lemma SameMultisetSameElements(a: seq<string>, b: seq<string>)
    requires multiset(a) == multiset(b)
    ensures Elements(a) == Elements(b)
  {
    forall x ensures x in a <==> x in b {
      assert x in a <==> x in multiset(a);
      assert x in b <==> x in multiset(b);
    }
  }

  lemma {:induction false} StrictlySortedIsUnique(a: seq<string>, b: seq<string>)
    requires StrictlySorted(a) && StrictlySorted(b) && Elements(a) == Elements(b)
    ensures a == b
  {
    NoElements(a);
    NoElements(b);
    if a != [] {
      assert a[0] in Elements(b);
      assert b[0] in Elements(a);
      FirstIsSmallest(a, b[0]);
      FirstIsSmallest(b, a[0]);
      LessIsTotal(a[0], b[0]);
      TailElements(a);
      TailElements(b);
      StrictlySortedIsUnique(a[1..], b[1..]);
      assert a == [a[0]] + a[1..] && b == [b[0]] + b[1..];
    }
  }

  lemma NoElements(s: seq<string>)
    ensures Elements(s) == {} <==> s == []
  {
    if s != [] {
      assert s[0] in Elements(s);
    }
  }

  lemma FirstIsSmallest(s: seq<string>, x: string)
    requires StrictlySorted(s) && x in s
    ensures s[0] == x || Less(s[0], x)
  {
  }

  lemma TailElements(s: seq<string>)
    requires StrictlySorted(s) && s != []
    ensures Elements(s[1..]) == Elements(s) - {s[0]} && StrictlySorted(s[1..])
  {
    LessIsTotal(s[0], s[0]);
    assert s == [s[0]] + s[1..];
  }

  // ---------- grants ----------

  function ScopedTo(entries: seq<Entry>, scope: Scope): set<string> {
    set e, m | e in entries && e.Entry? && e.scope == scope && m in e.methods :: m
  }

  /** The (subject, method) pairs of the flattened permissions. */
  function Pairs(ps: seq<Option<MethodPermission>>): set<(string, string)> {
    set p, m | p in ps && p.Some? && m in p.value.methods :: (p.value.subject, m)
  }

  /** A missing visibility leaves a nil entry behind. */
  function Flattened(e: Entry): Option<MethodPermission> {
    if e.Unset? then None else Some(MethodPermission(SubjectOf(e.scope), e.methods))
  }

  method FlattenPermissions(entries: seq<Entry>) returns (r: seq<Option<MethodPermission>>)
    ensures r == Flatten(entries)
  {
    r := [];
    for i := 0 to |entries|
      invariant r == Flatten(entries[..i])
    {
      assert entries[..i + 1] == entries[..i] + [entries[i]];
      r := r + [Flattened(entries[i])];
    }
    assert entries[..|entries|] == entries;
  }

  function Flatten(entries: seq<Entry>): seq<Option<MethodPermission>> {
    seq(|entries|, i requires 0 <= i < |entries| => Flattened(entries[i]))
  }

  /** One entry per visibility and subject, none without, methods strictly sorted. */
  ghost predicate Compact(entries: seq<Entry>) {
    && (forall i :: 0 <= i < |entries| ==> entries[i].Entry? && StrictlySorted(entries[i].methods))
    && (forall i, j :: 0 <= i < j < |entries| ==> entries[i].scope != entries[j].scope)
  }

  function IndexOf(entries: seq<Entry>, scope: Scope): (i: nat)
    ensures i <= |entries|
    ensures i < |entries| ==> entries[i].Entry? && entries[i].scope == scope
    ensures forall j :: 0 <= j < i ==> entries[j].Unset? || entries[j].scope != scope
  {
    if entries == [] then 0
    else if entries[0].Entry? && entries[0].scope == scope then 0
    else 1 + IndexOf(entries[1..], scope)
  }

  /** The scopes in the order of their first appearance. */
  function Scopes(entries: seq<Entry>): seq<Scope> {
    if entries == [] then []
    else
      var before, e := Scopes(entries[..|entries| - 1]), entries[|entries| - 1];
      if e.Unset? || e.scope in before then before else before + [e.scope]
  }

  /** What compaction makes of a list: the scopes in order, each with all its methods. */
  ghost predicate IsCompactionOf(res: seq<Entry>, entries: seq<Entry>) {
    && Compact(res)
    && |res| == |Scopes(entries)|
    && (forall i :: 0 <= i < |res| ==> res[i].scope == Scopes(entries)[i])
    && (forall scope :: ScopedTo(res, scope) == ScopedTo(entries, scope))
  }

  method CompactPermissions(entries: seq<Entry>) returns (res: seq<Entry>)
    ensures IsCompactionOf(res, entries)
  {
    res := [];
    for i := 0 to |entries|
      invariant IsCompactionOf(res, entries[..i])
    {
      var e, done := entries[i], entries[..i];
      assert entries[..i + 1] == done + [e] && entries[..i + 1][..i] == done;
      if e.Entry? {
        var idx := IndexOf(res, e.scope);
        if idx == |res| {
          var methods := SortUniq(e.methods);
          AppendEntry(res, done, e, methods);
          res := res + [Entry(e.scope, methods)];
        } else {
          var methods := SortUniq(res[idx].methods + e.methods);
          MergeEntry(res, done, e, idx, methods);
          res := res[idx := Entry(e.scope, methods)];
        }
      } else {
        SkipEntry(done, e);
      }
    }
    assert entries[..|entries|] == entries;
  }

  lemma ScopedToOneMore(entries: seq<Entry>, e: Entry, scope: Scope)
    ensures ScopedTo(entries + [e], scope) ==
            ScopedTo(entries, scope) + if e.Entry? && e.scope == scope then Elements(e.methods) else {}
  {
    assert forall x :: x in entries + [e] <==> x in entries || x == e;
  }

  lemma SkipEntry(done: seq<Entry>, e: Entry)
    requires e.Unset?
    ensures Scopes(done + [e]) == Scopes(done) && forall scope :: ScopedTo(done + [e], scope) == ScopedTo(done, scope)
  {
    assert (done + [e])[..|done|] == done;
    forall scope ensures ScopedTo(done + [e], scope) == ScopedTo(done, scope) {
      ScopedToOneMore(done, e, scope);
    }
  }

  lemma AppendEntry(res: seq<Entry>, done: seq<Entry>, e: Entry, methods: seq<string>)
    requires IsCompactionOf(res, done) && e.Entry? && IndexOf(res, e.scope) == |res|
    requires StrictlySorted(methods) && Elements(methods) == Elements(e.methods)
    ensures IsCompactionOf(res + [Entry(e.scope, methods)], done + [e])
  {
    var more := Entry(e.scope, methods);
    assert (done + [e])[..|done|] == done;
    assert e.scope !in Scopes(done);
    forall scope ensures ScopedTo(res + [more], scope) == ScopedTo(done + [e], scope) {
      ScopedToOneMore(res, more, scope);
      ScopedToOneMore(done, e, scope);
    }
  }

  lemma MergeEntry(res: seq<Entry>, done: seq<Entry>, e: Entry, idx: nat, methods: seq<string>)
    requires IsCompactionOf(res, done) && e.Entry? && idx < |res| && res[idx].scope == e.scope
    requires StrictlySorted(methods) && Elements(methods) == Elements(res[idx].methods + e.methods)
    ensures IsCompactionOf(res[idx := Entry(e.scope, methods)], done + [e])
  {
    var merged := res[idx := Entry(e.scope, methods)];
    assert (done + [e])[..|done|] == done;
    assert e.scope in Scopes(done) by {
      assert Scopes(done)[idx] == e.scope;
    }
    forall scope ensures ScopedTo(merged, scope) == ScopedTo(done + [e], scope) {
      ScopedToOneMore(done, e, scope);
      if scope == e.scope {
        OnlyEntryOfScope(res, idx);
        OnlyEntryOfScope(merged, idx);
        assert Elements(methods) == Elements(res[idx].methods) + Elements(e.methods);
      } else {
        OtherEntries(res, merged, idx, scope);
      }
    }
  }

  lemma OnlyEntryOfScope(entries: seq<Entry>, i: nat)
    requires i < |entries| && (forall k :: 0 <= k < |entries| ==> entries[k].Entry?)
    requires forall k :: 0 <= k < |entries| && k != i ==> entries[k].scope != entries[i].scope
    ensures ScopedTo(entries, entries[i].scope) == Elements(entries[i].methods)
  {
    assert entries[i] in entries;
  }

  lemma OtherEntries(a: seq<Entry>, b: seq<Entry>, i: nat, scope: Scope)
    requires i < |a| == |b| && a[i].Entry? && b[i].Entry? && a[i].scope != scope && b[i].scope != scope
    requires forall k :: 0 <= k < |a| && k != i ==> a[k] == b[k]
    ensures ScopedTo(a, scope) == ScopedTo(b, scope)
  {
    forall e: Entry | e.Entry? && e.scope == scope ensures e in a <==> e in b {
      if e in a {
        var k :| 0 <= k < |a| && a[k] == e;
        assert b[k] == e;
      }
      if e in b {
        var k :| 0 <= k < |b| && b[k] == e;
        assert a[k] == e;
      }
    }
  }

  // ---------- what compaction keeps ----------

  lemma PairsByScope(entries: seq<Entry>, subject: string, m: string)
    ensures (subject, m) in Pairs(Flatten(entries)) <==>
            exists scope :: SubjectOf(scope) == subject && m in ScopedTo(entries, scope)
  {
    var ps := Flatten(entries);
    if (subject, m) in Pairs(ps) {
      var p :| p in ps && p.Some? && m in p.value.methods && p.value.subject == subject;
      var i :| 0 <= i < |ps| && ps[i] == p;
      assert entries[i] in entries && m in ScopedTo(entries, entries[i].scope);
    }
    if scope :| SubjectOf(scope) == subject && m in ScopedTo(entries, scope) {
      var e :| e in entries && e.Entry? && e.scope == scope && m in e.methods;
      var i :| 0 <= i < |entries| && entries[i] == e;
      assert ps[i] == Some(MethodPermission(subject, e.methods)) && ps[i] in ps;
    }
  }

  /**
   An entry grants its methods on its own machine, project or tenant, and on the empty subject if its
   visibility names nothing; an entry without a visibility grants nothing.
   */
  lemma EntriesGrantTheirSubject(entries: seq<Entry>, subject: string, m: string)
    ensures (subject, m) in Pairs(Flatten(entries)) <==>
            exists e | e in entries && e.Entry? && m in e.methods ::
              match e.scope
              case Machine(uuid) => subject == uuid
              case Project(project) => subject == project
              case Tenant(login) => subject == login
              case Admin => subject == ""
              case Infra => subject == ""
              case Public => subject == ""
              case Self => subject == ""
  {
    PairsByScope(entries, subject, m);
    hide Pairs;
    if scope :| SubjectOf(scope) == subject && m in ScopedTo(entries, scope) {
      var e :| e in entries && e.Entry? && e.scope == scope && m in e.methods;
    }
    if e :| e in entries && e.Entry? && m in e.methods && SubjectOf(e.scope) == subject {
      assert m in ScopedTo(entries, e.scope);
    }
  }

  /** Compaction grants exactly what was requested. */
  lemma CompactionKeepsGrants(entries: seq<Entry>, res: seq<Entry>)
    requires IsCompactionOf(res, entries)
    ensures Pairs(Flatten(res)) == Pairs(Flatten(entries))
    ensures None !in Flatten(res)
  {
    forall s, m ensures (s, m) in Pairs(Flatten(res)) <==> (s, m) in Pairs(Flatten(entries)) {
      PairsByScope(res, s, m);
      PairsByScope(entries, s, m);
    }
  }

  lemma {:induction false} ScopesOfCompact(entries: seq<Entry>)
    requires Compact(entries)
    ensures |Scopes(entries)| == |entries|
    ensures forall i :: 0 <= i < |entries| ==> Scopes(entries)[i] == entries[i].scope
  {
    if entries != [] {
      ScopesOfCompact(entries[..|entries| - 1]);
    }
  }

  /** The result is determined by the input, and compacting twice is compacting once. */
  lemma CompactionIsUniqueAndIdempotent(entries: seq<Entry>, res: seq<Entry>, again: seq<Entry>)
    requires IsCompactionOf(res, entries)
    ensures IsCompactionOf(again, entries) ==> again == res
    ensures IsCompactionOf(again, res) ==> again == res
  {
    ScopesOfCompact(res);
    if IsCompactionOf(again, entries) || IsCompactionOf(again, res) {
      forall i | 0 <= i < |res| ensures again[i] == res[i] {
        OnlyEntryOfScope(res, i);
        OnlyEntryOfScope(again, i);
        StrictlySortedIsUnique(res[i].methods, again[i].methods);
      }
    }
  }
}
