/**
 After a migration, registering a machine again on the new switch should find the very connections
 that were adopted. This is when it does.
 */
module Reregistration {
  import opened Wrappers
  import opened Ordering
  import opened PortNames
  import opened Switches
  import opened Adoption
  import opened Migration

  /** Name, identifier and hardware address: what a connection says about its port. */
  type Key = (string, string, string)

  function KeyOf(n: Nic): Key {
    (n.name, n.identifier, n.mac)
  }

  function Keys(cons: seq<Connection>): seq<Key> {
    seq(|cons|, i requires 0 <= i < |cons| => KeyOf(cons[i].nic))
  }

  function MovedKey(k: Key, out: map<string, Nic>): Key {
    if k.0 in out then KeyOf(out[k.0]) else k
  }

  function MovedKeys(keys: seq<Key>, out: map<string, Nic>): seq<Key> {
    seq(|keys|, i requires 0 <= i < |keys| => MovedKey(keys[i], out))
  }

  lemma MoveOneOut(b: seq<Key>, i: nat, out: map<string, Nic>)
    requires i < |b|
    ensures multiset(MovedKeys(b, out)) == multiset(MovedKeys(b[..i] + b[i + 1..], out)) + multiset{MovedKey(b[i], out)}
  {
    hide MovedKey;
    var before, after, k := b[..i], b[i + 1..], MovedKey(b[i], out);
    assert MovedKeys(b, out) == MovedKeys(before, out) + [k] + MovedKeys(after, out);
    assert MovedKeys(before + after, out) == MovedKeys(before, out) + MovedKeys(after, out);
  }

  lemma TakeOneOut(b: seq<Key>, i: nat)
    requires i < |b|
    ensures multiset(b) == multiset(b[..i] + b[i + 1..]) + multiset{b[i]}
  {
    assert b == b[..i] + [b[i]] + b[i + 1..];
  }

  lemma SomewhereElse(a: seq<Key>, b: seq<Key>) returns (i: nat)
    requires multiset(a) == multiset(b) && a != []
    ensures i < |b| && b[i] == a[0] && multiset(a[..0] + a[1..]) == multiset(b[..i] + b[i + 1..])
  {
    assert a[0] in multiset(b);
    i :| 0 <= i < |b| && b[i] == a[0];
    TakeOneOut(a, 0);
    TakeOneOut(b, i);
    Cancel(multiset(a[..0] + a[1..]), multiset(b[..i] + b[i + 1..]), a[0]);
  }

  lemma Cancel(m: multiset<Key>, n: multiset<Key>, k: Key)
    requires m + multiset{k} == n + multiset{k}
    ensures m == n
  {
    assert m == (m + multiset{k}) - multiset{k} && n == (n + multiset{k}) - multiset{k};
  }

  lemma {:induction false} MovingKeepsMultisets(a: seq<Key>, b: seq<Key>, out: map<string, Nic>)
    requires multiset(a) == multiset(b)
    ensures multiset(MovedKeys(a, out)) == multiset(MovedKeys(b, out))
    decreases |a|
  {
    hide MovedKey, MovedKeys;
    if a == [] {
      assert |multiset(b)| == 0;
      assert b == [];
    } else {
      var i := SomewhereElse(a, b);
      MovingKeepsMultisets(a[..0] + a[1..], b[..i] + b[i + 1..], out);
      MoveOneOut(a, 0, out);
      MoveOneOut(b, i, out);
    }
  }

  ghost predicate NoRepeats(a: seq<Key>) {
    forall i, j | 0 <= i < j < |a| :: a[i] != a[j]
  }

  /** Two lists without repetition and with the same elements are the same multiset. */
  lemma {:induction false} SameElementsOnce(a: seq<Key>, b: seq<Key>)
    requires NoRepeats(a) && NoRepeats(b)
    requires forall k :: k in a <==> k in b
    ensures multiset(a) == multiset(b)
  {
    forall k ensures multiset(a)[k] == multiset(b)[k] {
      CountedOnce(a, k);
      CountedOnce(b, k);
    }
  }

  lemma {:induction false} CountedOnce(a: seq<Key>, k: Key)
    requires NoRepeats(a)
    ensures multiset(a)[k] == if k in a then 1 else 0
  {
    if a != [] {
      CountedOnce(a[1..], k);
      assert a == [a[0]] + a[1..];
      assert k in a[1..] ==> k != a[0];
    }
  }

  /** A neighbor on the old switch is one of its ports, and none is on the new switch yet. */
  ghost predicate Plausible(m: Nic, oldId: string, oldNics: seq<Nic>, newId: string) {
    forall b | b in m.neighbors ::
      if b.hostname == oldId then exists o | o in oldNics :: KeyOf(o) == KeyOf(b) else b.hostname != newId
  }

  /**
   A neighbor on some other switch is not taken for a connection, unless the same nic also has the
   old switch's port of that name as a neighbor.
   */
  ghost predicate NoStray(m: Nic, oldId: string, cons: seq<Connection>) {
    forall b | b in m.neighbors && b.hostname != oldId && NicInConnections(b.name, b.mac, cons) ::
      exists a | a in m.neighbors :: a.hostname == oldId && a.name == b.name
  }

  /** What the agreement rests on: both switches, the adopted connections of one machine and the port maps. */
  datatype Move = Move(oldId: string, oldNics: seq<Nic>, cons: seq<Connection>,
                       newId: string, newNics: seq<Nic>, forIndex: map<string, Nic>, forMachines: map<string, Nic>)
  {
    ghost predicate Sound() {
      && oldId != "" && newId != "" && oldId != newId && NoDuplicates(oldNics) && NoDuplicates(newNics)
      && (forall t, u | t in forIndex && u in forIndex && t != u :: forIndex[t].name != forIndex[u].name)
      && (forall i | 0 <= i < |cons| :: SamePort(cons[i].nic.name) && WasAPort(cons[i].nic))
    }

    ghost predicate SamePort(t: string) {
      && t in forIndex && t in forMachines && forMachines[t] in newNics && KeyOf(forMachines[t]) == KeyOf(forIndex[t])
      && forMachines[t].hostname == newId && forMachines[t].identifier != ""
    }

    ghost predicate WasAPort(n: Nic) {
      exists o | o in oldNics :: KeyOf(o) == KeyOf(n) && o.identifier != ""
    }

    ghost predicate PlausibleNic(m: Nic) {
      Plausible(m, oldId, oldNics, newId) && AllReportedAreConnected(m)
    }

    ghost predicate NoStrayNeighbor(m: Nic) {
      NoStray(m, oldId, cons)
    }

    ghost predicate AllReportedAreConnected(m: Nic) {
      forall o | o in oldNics && Reports(m, oldId, o) :: NicInConnections(o.name, o.mac, cons)
    }

    function Adjusted(m: Nic): Nic {
      AdjustedNic(m, cons, forMachines)
    }
  }

  lemma AdjustedMember(m: Nic, v: Move, b: Nic)
    ensures b in v.Adjusted(m).neighbors <==>
            exists a | a in m.neighbors :: AdjustedNeighbor(a, v.cons, v.forMachines) == b
  {
    hide AdjustedNeighbor;
    var adjusted := AdjustedNeighbors(m.neighbors, v.cons, v.forMachines);
    assert forall i | 0 <= i < |m.neighbors| :: adjusted[i] == AdjustedNeighbor(m.neighbors[i], v.cons, v.forMachines);
  }

  lemma ConnectedPort(v: Move, name: string, mac: string) returns (o: Nic)
    requires v.Sound() && NicInConnections(name, mac, v.cons)
    ensures o in v.oldNics && o.name == name && o.mac == mac && o.identifier != "" && v.SamePort(name)
  {
    hide NoDuplicates;
    var i :| 0 <= i < |v.cons| && v.cons[i].nic.name == name && v.cons[i].nic.mac == mac;
    assert v.WasAPort(v.cons[i].nic) && v.SamePort(name);
    o :| o in v.oldNics && KeyOf(o) == KeyOf(v.cons[i].nic) && o.identifier != "";
  }

  /** A nic reports the old port behind every neighbor of that name on the old switch. */
  lemma OldNeighborIsReported(v: Move, m: Nic, a: Nic, o: Nic)
    requires v.Sound() && v.PlausibleNic(m) && a in m.neighbors && a.hostname == v.oldId
    requires o in v.oldNics && o.name == a.name && o.identifier != ""
    ensures Reports(m, v.oldId, o) && KeyOf(o) == KeyOf(a)
  {
    hide Reports, NoDuplicates, NicInConnections;
    var p :| p in v.oldNics && KeyOf(p) == KeyOf(a);
    SameByKey(v.oldNics, o, p);
    ReportsExactly(m, v.oldId, o);
  }

  /** A port reported of the new switch stands for a neighbor that was taken for a connection. */
  lemma ReportedWasConnected(v: Move, m: Nic, y: Nic) returns (a: Nic)
    requires v.Sound() && v.PlausibleNic(m)
    requires y in v.newNics && Reports(v.Adjusted(m), v.newId, y)
    ensures a in m.neighbors && NicInConnections(a.name, a.mac, v.cons) && v.SamePort(a.name)
            && v.forMachines[a.name] == y
  {
    hide Reports, NoDuplicates, NicInConnections;
    ReportsExactly(v.Adjusted(m), v.newId, y);
    var b :| b in v.Adjusted(m).neighbors && b.identifier == y.identifier && b.hostname == v.newId;
    AdjustedMember(m, v, b);
    a :| a in m.neighbors && AdjustedNeighbor(a, v.cons, v.forMachines) == b;
    assert NicInConnections(a.name, a.mac, v.cons);
    var o := ConnectedPort(v, a.name, a.mac);
    SameByKey(v.newNics, v.forMachines[a.name], y);
  }

  /** Without stray neighbors it comes from a port reported of the old switch. */
  lemma ReportedComesFrom(v: Move, m: Nic, y: Nic) returns (o: Nic)
    requires v.Sound() && v.PlausibleNic(m) && v.NoStrayNeighbor(m)
    requires y in v.newNics && Reports(v.Adjusted(m), v.newId, y)
    ensures o in v.oldNics && Reports(m, v.oldId, o) && v.SamePort(o.name) && v.forMachines[o.name] == y
  {
    hide Reports, NoDuplicates, NicInConnections;
    var b := ReportedWasConnected(v, m, y);
    o := ConnectedPort(v, b.name, b.mac);
    var a := b;
    if b.hostname != v.oldId {
      a :| a in m.neighbors && a.hostname == v.oldId && a.name == b.name;
    }
    OldNeighborIsReported(v, m, a, o);
  }

  lemma SameByKey(nics: seq<Nic>, n: Nic, m: Nic)
    requires NoDuplicates(nics) && n in nics && m in nics && (n.name == m.name || n.identifier == m.identifier)
    ensures n == m
  {
    if n != m {
      DifferentNics(nics, Name, n, m);
      DifferentNics(nics, Identifier, n, m);
    }
  }

  lemma NeighborGoesTo(v: Move, m: Nic, a: Nic)
    requires v.Sound() && a in m.neighbors && NicInConnections(a.name, a.mac, v.cons)
    ensures v.SamePort(a.name) && Reports(v.Adjusted(m), v.newId, v.forMachines[a.name])
  {
    hide Reports, NoDuplicates, NicInConnections;
    var o := ConnectedPort(v, a.name, a.mac);
    var y := v.forMachines[a.name];
    AdjustedMember(m, v, y);
    ReportsExactly(v.Adjusted(m), v.newId, y);
  }

  lemma ReportedGoesTo(v: Move, m: Nic, o: Nic)
    requires v.Sound() && v.PlausibleNic(m)
    requires o in v.oldNics && Reports(m, v.oldId, o)
    ensures v.SamePort(o.name) && Reports(v.Adjusted(m), v.newId, v.forMachines[o.name])
  {
    hide Reports, NoDuplicates, NicInConnections;
    ReportsExactly(m, v.oldId, o);
    var a :| a in m.neighbors && a.identifier == o.identifier && a.hostname == v.oldId;
    var p :| p in v.oldNics && KeyOf(p) == KeyOf(a);
    SameByKey(v.oldNics, o, p);
    NeighborGoesTo(v, m, a);
  }

  lemma {:induction false} SeenIsDistinct(m: Nic, id: string, nics: seq<Nic>, mid: string)
    requires NoDuplicates(nics)
    ensures var s := Seen(m, id, nics, mid); forall i, j | 0 <= i < j < |s| :: s[i].nic.name != s[j].nic.name
    ensures NoRepeats(Keys(Seen(m, id, nics, mid)))
  {
    hide Reports;
    if nics != [] {
      var rest, last := nics[..|nics| - 1], nics[|nics| - 1];
      SeenIsDistinct(m, id, rest, mid);
      var s := Seen(m, id, rest, mid);
      forall i | 0 <= i < |s| ensures s[i].nic.name != last.name {
        SeenExactly(m, id, rest, mid, s[i]);
        var k :| 0 <= k < |rest| && rest[k] == s[i].nic;
        assert Name(nics[k]) != Name(nics[|nics| - 1]);
      }
    }
  }

  lemma KeysMember(cons: seq<Connection>, k: Key)
    ensures k in Keys(cons) <==> exists con | con in cons :: KeyOf(con.nic) == k
  {
    assert forall i | 0 <= i < |cons| :: Keys(cons)[i] == KeyOf(cons[i].nic);
  }

  lemma MovedMember(keys: seq<Key>, out: map<string, Nic>, k: Key)
    ensures k in MovedKeys(keys, out) <==> exists l | l in keys :: MovedKey(l, out) == k
  {
    hide MovedKey;
    assert forall i | 0 <= i < |keys| :: MovedKeys(keys, out)[i] == MovedKey(keys[i], out);
  }

  lemma SeenGoesTo(v: Move, m: Nic, mid: string, k: Key)
    requires v.Sound() && v.PlausibleNic(m)
    requires k in MovedKeys(Keys(Seen(m, v.oldId, v.oldNics, mid)), v.forIndex)
    ensures k in Keys(Seen(v.Adjusted(m), v.newId, v.newNics, mid))
  {
    hide Reports, NoDuplicates, Seen, Keys, MovedKeys;
    var before, after := Seen(m, v.oldId, v.oldNics, mid), Seen(v.Adjusted(m), v.newId, v.newNics, mid);
    MovedMember(Keys(before), v.forIndex, k);
    var l :| l in Keys(before) && MovedKey(l, v.forIndex) == k;
    KeysMember(before, l);
    var con :| con in before && KeyOf(con.nic) == l;
    SeenExactly(m, v.oldId, v.oldNics, mid, con);
    ReportedGoesTo(v, m, con.nic);
    var y := v.forMachines[con.nic.name];
    SeenExactly(v.Adjusted(m), v.newId, v.newNics, mid, Connection(y, mid));
    KeysMember(after, k);
    assert Connection(y, mid) in after && KeyOf(y) == k;
  }

  lemma SeenComesFrom(v: Move, m: Nic, mid: string, k: Key)
    requires v.Sound() && v.PlausibleNic(m) && v.NoStrayNeighbor(m)
    requires k in Keys(Seen(v.Adjusted(m), v.newId, v.newNics, mid))
    ensures k in MovedKeys(Keys(Seen(m, v.oldId, v.oldNics, mid)), v.forIndex)
  {
    hide Reports, NoDuplicates, Seen, Keys, MovedKeys;
    var before, after := Seen(m, v.oldId, v.oldNics, mid), Seen(v.Adjusted(m), v.newId, v.newNics, mid);
    KeysMember(after, k);
    var con :| con in after && KeyOf(con.nic) == k;
    SeenExactly(v.Adjusted(m), v.newId, v.newNics, mid, con);
    var o := ReportedComesFrom(v, m, con.nic);
    SeenExactly(m, v.oldId, v.oldNics, mid, Connection(o, mid));
    KeysMember(before, KeyOf(o));
    assert Connection(o, mid) in before;
    MovedMember(Keys(before), v.forIndex, k);
    assert MovedKey(KeyOf(o), v.forIndex) == k;
  }

  /** A stray neighbor makes the nic report one port more than before. */
  lemma StrayIsNew(v: Move, m: Nic, mid: string) returns (k: Key)
    requires v.Sound() && v.PlausibleNic(m) && !v.NoStrayNeighbor(m)
    ensures k in Keys(Seen(v.Adjusted(m), v.newId, v.newNics, mid))
    ensures k !in MovedKeys(Keys(Seen(m, v.oldId, v.oldNics, mid)), v.forIndex)
  {
    hide Reports, NoDuplicates, Seen, Keys, MovedKeys, NicInConnections;
    var before, after := Seen(m, v.oldId, v.oldNics, mid), Seen(v.Adjusted(m), v.newId, v.newNics, mid);
    var b :| b in m.neighbors && b.hostname != v.oldId && NicInConnections(b.name, b.mac, v.cons)
             && !exists a | a in m.neighbors :: a.hostname == v.oldId && a.name == b.name;
    NeighborGoesTo(v, m, b);
    var y := v.forMachines[b.name];
    k := KeyOf(y);
    SeenExactly(v.Adjusted(m), v.newId, v.newNics, mid, Connection(y, mid));
    assert Connection(y, mid) in after;
    KeysMember(after, k);
    if k in MovedKeys(Keys(before), v.forIndex) {
      MovedMember(Keys(before), v.forIndex, k);
      var l :| l in Keys(before) && MovedKey(l, v.forIndex) == k;
      KeysMember(before, l);
      var con :| con in before && KeyOf(con.nic) == l;
      SeenExactly(m, v.oldId, v.oldNics, mid, con);
      ReportedGoesTo(v, m, con.nic);
      NeighborNamed(v, m, con.nic);
      assert false;
    }
  }

  lemma NeighborNamed(v: Move, m: Nic, o: Nic)
    requires v.Sound() && v.PlausibleNic(m) && o in v.oldNics && Reports(m, v.oldId, o)
    ensures exists a | a in m.neighbors :: a.hostname == v.oldId && a.name == o.name
  {
    hide Reports, NoDuplicates, NicInConnections;
    ReportsExactly(m, v.oldId, o);
    var a :| a in m.neighbors && a.identifier == o.identifier && a.hostname == v.oldId;
    var p :| p in v.oldNics && KeyOf(p) == KeyOf(a);
    SameByKey(v.oldNics, o, p);
  }

  lemma MovedKeysAreDistinct(v: Move, m: Nic, mid: string)
    requires v.Sound() && v.PlausibleNic(m)
    ensures NoRepeats(MovedKeys(Keys(Seen(m, v.oldId, v.oldNics, mid)), v.forIndex))
  {
    hide Reports;
    var s := Seen(m, v.oldId, v.oldNics, mid);
    SeenIsDistinct(m, v.oldId, v.oldNics, mid);
    forall i | 0 <= i < |s| ensures s[i].nic.name in v.forIndex {
      SeenExactly(m, v.oldId, v.oldNics, mid, s[i]);
      ReportedGoesTo(v, m, s[i].nic);
    }
  }

  lemma SeenAgrees(v: Move, m: Nic, mid: string)
    requires v.Sound() && v.PlausibleNic(m) && v.NoStrayNeighbor(m)
    ensures multiset(Keys(Seen(v.Adjusted(m), v.newId, v.newNics, mid))) ==
            multiset(MovedKeys(Keys(Seen(m, v.oldId, v.oldNics, mid)), v.forIndex))
  {
    hide Reports, Seen, MovedKeys, Keys, NoRepeats, NoStray;
    var before, after := MovedKeys(Keys(Seen(m, v.oldId, v.oldNics, mid)), v.forIndex),
      Keys(Seen(v.Adjusted(m), v.newId, v.newNics, mid));
    forall k ensures k in after <==> k in before {
      if k in after { SeenComesFrom(v, m, mid, k); }
      if k in before { SeenGoesTo(v, m, mid, k); }
    }
    SeenIsDistinct(v.Adjusted(m), v.newId, v.newNics, mid);
    MovedKeysAreDistinct(v, m, mid);
    SameElementsOnce(after, before);
  }

  ghost predicate Within(a: seq<Key>, b: seq<Key>) {
    forall i | 0 <= i < |a| :: a[i] in b
  }

  lemma WithoutOne(a: seq<Key>, b: seq<Key>, i: nat)
    requires NoRepeats(a) && a != [] && Within(a, b) && i < |b| && b[i] == a[0]
    ensures NoRepeats(a[1..]) && Within(a[1..], b[..i] + b[i + 1..])
    ensures Within(b[..i] + b[i + 1..], a[1..]) ==> Within(b, a)
  {
    var rest, others := a[1..], b[..i] + b[i + 1..];
    forall j | 0 <= j < |rest| ensures rest[j] in others {
      assert rest[j] == a[j + 1] && a[j + 1] in b;
      var l :| 0 <= l < |b| && b[l] == a[j + 1];
      assert l != i;
      assert others[if l < i then l else l - 1] == rest[j];
    }
    if Within(others, rest) {
      forall l | 0 <= l < |b| ensures b[l] in a {
        if l != i {
          assert b[l] == others[if l < i then l else l - 1];
          assert b[l] in rest;
        }
      }
    }
  }

  lemma {:induction false} FewerElementsOnce(a: seq<Key>, b: seq<Key>)
    requires NoRepeats(a) && Within(a, b)
    ensures |a| <= |b|
    ensures |a| == |b| ==> Within(b, a)
    decreases |a|
  {
    if a != [] {
      assert a[0] in b;
      var i :| 0 <= i < |b| && b[i] == a[0];
      WithoutOne(a, b, i);
      hide NoRepeats, Within;
      FewerElementsOnce(a[1..], b[..i] + b[i + 1..]);
    }
  }

  /** A nic never reports less than before, and as much only if it has no stray neighbor. */
  lemma SeenGrows(v: Move, m: Nic, mid: string)
    requires v.Sound() && v.PlausibleNic(m)
    ensures |Seen(m, v.oldId, v.oldNics, mid)| <= |Seen(v.Adjusted(m), v.newId, v.newNics, mid)|
    ensures !v.NoStrayNeighbor(m) ==>
            |Seen(m, v.oldId, v.oldNics, mid)| < |Seen(v.Adjusted(m), v.newId, v.newNics, mid)|
  {
    hide Reports, Seen, NoRepeats, NoStray, MovedKey, KeyOf;
    var before, after := MovedKeys(Keys(Seen(m, v.oldId, v.oldNics, mid)), v.forIndex),
      Keys(Seen(v.Adjusted(m), v.newId, v.newNics, mid));
    forall i | 0 <= i < |before| ensures before[i] in after {
      SeenGoesTo(v, m, mid, before[i]);
    }
    MovedKeysAreDistinct(v, m, mid);
    FewerElementsOnce(before, after);
    if !v.NoStrayNeighbor(m) {
      var k := StrayIsNew(v, m, mid);
      var i :| 0 <= i < |after| && after[i] == k;
      assert after[i] !in before;
    }
  }

  lemma KeysOfSum(a: seq<Connection>, b: seq<Connection>, out: map<string, Nic>)
    ensures Keys(a + b) == Keys(a) + Keys(b)
    ensures MovedKeys(Keys(a + b), out) == MovedKeys(Keys(a), out) + MovedKeys(Keys(b), out)
  {
    hide MovedKey, KeyOf;
  }

  lemma {:induction false} PhysicalAgrees(v: Move, machineNics: seq<Nic>, mid: string)
    requires v.Sound() && forall m | m in machineNics :: v.PlausibleNic(m) && v.NoStrayNeighbor(m)
    ensures multiset(Keys(Physical(AdjustedNics(machineNics, v.cons, v.forMachines), v.newId, v.newNics, mid))) ==
            multiset(MovedKeys(Keys(Physical(machineNics, v.oldId, v.oldNics, mid)), v.forIndex))
  {
    hide Keys, MovedKeys, Seen, AdjustedNic;
    var adjusted := AdjustedNics(machineNics, v.cons, v.forMachines);
    if machineNics == [] {
      assert adjusted == [];
      KeysOfSum([], [], v.forIndex);
      NoKeys(v.forIndex);
    } else {
      var rest, last := machineNics[..|machineNics| - 1], machineNics[|machineNics| - 1];
      assert adjusted[..|adjusted| - 1] == AdjustedNics(rest, v.cons, v.forMachines);
      assert adjusted[|adjusted| - 1] == v.Adjusted(last);
      PhysicalAgrees(v, rest, mid);
      SeenAgrees(v, last, mid);
      KeysOfSum(Physical(rest, v.oldId, v.oldNics, mid), Seen(last, v.oldId, v.oldNics, mid), v.forIndex);
      KeysOfSum(Physical(adjusted[..|adjusted| - 1], v.newId, v.newNics, mid),
        Seen(v.Adjusted(last), v.newId, v.newNics, mid), v.forIndex);
    }
  }

  lemma {:induction false} PhysicalGrows(v: Move, machineNics: seq<Nic>, mid: string)
    requires v.Sound() && forall m | m in machineNics :: v.PlausibleNic(m)
    ensures var before, after := Physical(machineNics, v.oldId, v.oldNics, mid),
                                 Physical(AdjustedNics(machineNics, v.cons, v.forMachines), v.newId, v.newNics, mid);
            && |before| <= |after|
            && (|before| == |after| ==> forall m | m in machineNics :: v.NoStrayNeighbor(m))
  {
    hide Seen, AdjustedNic;
    var adjusted := AdjustedNics(machineNics, v.cons, v.forMachines);
    if machineNics == [] {
      assert adjusted == [];
    } else {
      var rest, last := machineNics[..|machineNics| - 1], machineNics[|machineNics| - 1];
      assert adjusted[..|adjusted| - 1] == AdjustedNics(rest, v.cons, v.forMachines);
      assert adjusted[|adjusted| - 1] == v.Adjusted(last);
      assert machineNics == rest + [last];
      PhysicalGrows(v, rest, mid);
      SeenGrows(v, last, mid);
    }
  }

  lemma NoKeys(out: map<string, Nic>)
    ensures Keys([]) == [] && MovedKeys([], out) == []
  {
  }

  // ---------- the port maps of one migration ----------

  /** The map made for the machines gives the very port a connection was adopted with. */
  lemma MapsAgree(twin: Config, nics: seq<Nic>, source: Vendor, target: Vendor, newId: string, d: Config,
                  forNics: map<string, Nic>, forIndex: map<string, Nic>, forMachines: map<string, Nic>,
                  names: set<string>, t: string)
    requires Fresh(nics, newId) && Unambiguous(nics, source, target, names) && t in names
    requires Translation(nics, source, target, forNics) && Translation(nics, source, target, forIndex)
    requires Adopted(twin, forNics, forIndex, d) && Translation(d.nics, source, target, forMachines)
    requires t in forIndex
    ensures t in forMachines && forMachines[t] in d.nics && KeyOf(forMachines[t]) == KeyOf(forIndex[t])
    ensures forMachines[t].hostname == newId && forMachines[t].identifier != ""
  {
    hide TargetName, ByKey, Translation, ListsSorted, AdoptedNics, IndexAdopted, CanTranslate;
    PortsStay(twin, nics, source, target, forNics, d.nics);
    NamesStay(twin, nics, source, target, forNics, d.nics);
    TranslationNames(nics, source, target, forIndex);
    TranslationNames(d.nics, source, target, forMachines);
    EntryOf(nics, source, target, forIndex, t);
    EntryOf(d.nics, source, target, forMachines, t);
    var x := forMachines[t];
    PortsCarryTheVrf(twin, nics, source, target, forNics, d.nics, x);
    var n :| n in nics && x == n.(vrf := x.vrf);
    assert x.name == forIndex[t].name;
    SameByKey(nics, n, forIndex[t]);
  }

  lemma DistinctPorts(nics: seq<Nic>, source: Vendor, target: Vendor, out: map<string, Nic>, t: string, u: string)
    requires Translation(nics, source, target, out) && t in out && u in out && t != u
    ensures out[t].name != out[u].name
  {
    hide NewName, ByKey, Translation;
    EntryOf(nics, source, target, out, t);
    EntryOf(nics, source, target, out, u);
  }

  /** Before the migration the index of the machine is what registering it would have given. */
  ghost predicate IndexAgrees(machineNics: seq<Nic>, id: string, nics: seq<Nic>, mid: string, cons: seq<Connection>) {
    multiset(Keys(Physical(machineNics, id, nics, mid))) == multiset(Keys(cons))
  }

  lemma IndexedIsReported(machineNics: seq<Nic>, id: string, nics: seq<Nic>, mid: string, cons: seq<Connection>, k: Key)
    requires IndexAgrees(machineNics, id, nics, mid, cons)
    ensures k in Keys(cons) <==> exists con | con in Physical(machineNics, id, nics, mid) :: KeyOf(con.nic) == k
  {
    hide Physical, Keys;
    KeysMember(Physical(machineNics, id, nics, mid), k);
    assert k in Keys(cons) <==> k in multiset(Keys(cons));
  }

  lemma ConnectionsArePorts(v: Move, machineNics: seq<Nic>, mid: string, con: Connection)
    requires IndexAgrees(machineNics, v.oldId, v.oldNics, mid, v.cons) && con in v.cons
    ensures v.WasAPort(con.nic)
  {
    hide Physical, Keys;
    KeysMember(v.cons, KeyOf(con.nic));
    IndexedIsReported(machineNics, v.oldId, v.oldNics, mid, v.cons, KeyOf(con.nic));
    var p :| p in Physical(machineNics, v.oldId, v.oldNics, mid) && KeyOf(p.nic) == KeyOf(con.nic);
    PhysicalExactly(machineNics, v.oldId, v.oldNics, mid, p);
  }

  lemma ReportedPortsAreConnected(v: Move, machineNics: seq<Nic>, mid: string, m: Nic)
    requires IndexAgrees(machineNics, v.oldId, v.oldNics, mid, v.cons) && m in machineNics
    ensures v.AllReportedAreConnected(m)
  {
    hide Physical, Keys, Reports;
    forall o | o in v.oldNics && Reports(m, v.oldId, o) ensures NicInConnections(o.name, o.mac, v.cons) {
      ReportsExactly(m, v.oldId, o);
      PhysicalExactly(machineNics, v.oldId, v.oldNics, mid, Connection(o, mid));
      IndexedIsReported(machineNics, v.oldId, v.oldNics, mid, v.cons, KeyOf(o));
      assert KeyOf(o) in Keys(v.cons) by {
        assert Connection(o, mid) in Physical(machineNics, v.oldId, v.oldNics, mid);
      }
      KeysMember(v.cons, KeyOf(o));
      var con :| con in v.cons && KeyOf(con.nic) == KeyOf(o);
      var i :| 0 <= i < |v.cons| && v.cons[i] == con;
    }
  }

  lemma AdoptedKeys(cons: seq<Connection>, out: map<string, Nic>)
    requires AllNamed(cons, out)
    ensures Keys(AdoptedConnections(cons, out)) == MovedKeys(Keys(cons), out)
  {
    var adopted := AdoptedConnections(cons, out);
    forall i | 0 <= i < |cons| ensures Keys(adopted)[i] == MovedKeys(Keys(cons), out)[i] {
      assert adopted[i] == AdoptedConnection(cons[i], out[cons[i].nic.name]);
    }
  }

  lemma MoveIsSound(twin: Config, twinVendor: Vendor, nics: seq<Nic>, vendor: Vendor, d: Config,
                    forNics: map<string, Nic>, mid: string, machineNics: seq<Nic>, v: Move)
    requires v.oldId != "" && v.newId != "" && v.oldId != v.newId && v.oldNics == twin.nics && v.newNics == d.nics
    requires NoDuplicates(twin.nics) && Fresh(nics, v.newId)
    requires Unambiguous(nics, vendor, twinVendor, ConnectedNames(twin.connections))
    requires Translation(nics, vendor, twinVendor, forNics) && Translation(nics, vendor, twinVendor, v.forIndex)
    requires Adopted(twin, forNics, v.forIndex, d) && Translation(d.nics, vendor, twinVendor, v.forMachines)
    requires mid in twin.connections && v.cons == twin.connections[mid]
    requires IndexAgrees(machineNics, v.oldId, twin.nics, mid, v.cons)
    ensures v.Sound()
  {
    hide Translation, ListsSorted, AdoptedNics, Unambiguous, IndexAgrees;
    AdoptedNicsAreDistinct(twin, nics, vendor, twinVendor, forNics, d.nics);
    forall t, u | t in v.forIndex && u in v.forIndex && t != u ensures v.forIndex[t].name != v.forIndex[u].name {
      DistinctPorts(nics, vendor, twinVendor, v.forIndex, t, u);
    }
    forall i | 0 <= i < |v.cons| ensures v.SamePort(v.cons[i].nic.name) && v.WasAPort(v.cons[i].nic) {
      ConnectionsArePorts(v, machineNics, mid, v.cons[i]);
      var t := v.cons[i].nic.name;
      assert v.cons[i] in twin.connections[mid] && t in v.forIndex;
      MapsAgree(twin, nics, vendor, twinVendor, v.newId, d, forNics, v.forIndex, v.forMachines,
        ConnectedNames(twin.connections), t);
    }
  }

  /** Before the migration: the index of every machine agrees with it, and its neighbors are plausible. */
  ghost predicate Settled(twin: Config, oldId: string, newId: string, before: map<string, seq<Nic>>) {
    && oldId != "" && newId != "" && oldId != newId && NoDuplicates(twin.nics) && twin.connections.Keys <= before.Keys
    && forall mid | mid in twin.connections ::
         && IndexAgrees(before[mid], oldId, twin.nics, mid, twin.connections[mid])
         && forall m | m in before[mid] :: Plausible(m, oldId, twin.nics, newId)
  }

  ghost predicate NoStrays(twin: Config, oldId: string, before: map<string, seq<Nic>>)
    requires twin.connections.Keys <= before.Keys
  {
    forall mid | mid in twin.connections :: forall m | m in before[mid] :: NoStray(m, oldId, twin.connections[mid])
  }

  /** Registering any of the machines again on the new switch would find exactly what the index holds for it. */
  ghost predicate AllAgree(connections: Connections, newId: string, d: Config, after: map<string, seq<Nic>>) {
    forall mid | mid in connections ::
      mid in d.connections && mid in after && IndexAgrees(after[mid], newId, d.nics, mid, d.connections[mid])
  }

  lemma MachineAgrees(twin: Config, oldId: string, twinVendor: Vendor, nics: seq<Nic>, newId: string, vendor: Vendor,
                      d: Config,
                      before: map<string, seq<Nic>>, after: map<string, seq<Nic>>,
                      forNics: map<string, Nic>, forIndex: map<string, Nic>, forMachines: map<string, Nic>, mid: string)
    requires Migrated(twin, twinVendor, nics, vendor, d, before, after, forNics, forIndex, forMachines)
    requires Settled(twin, oldId, newId, before) && Fresh(nics, newId) && mid in twin.connections
    requires Unambiguous(nics, vendor, twinVendor, ConnectedNames(twin.connections))
    ensures mid in d.connections && mid in after
    ensures IndexAgrees(after[mid], newId, d.nics, mid, d.connections[mid]) <==>
            forall m | m in before[mid] :: NoStray(m, oldId, twin.connections[mid])
  {
    hide Translation, ListsSorted, AdoptedNics, Unambiguous, NoDuplicates, Fresh, ConnectedNames, NoStray, Plausible;
    hide Physical, MovedKeys, AdoptedConnections, AdjustedNics, AllMovable, KeyOf;
    var cons := twin.connections[mid];
    var v := Move(oldId, twin.nics, cons, newId, d.nics, forIndex, forMachines);
    MoveIsSound(twin, twinVendor, nics, vendor, d, forNics, mid, before[mid], v);
    forall m | m in before[mid] ensures v.PlausibleNic(m) {
      ReportedPortsAreConnected(v, before[mid], mid, m);
    }
    AdoptedKeys(cons, forIndex);
    ConnectionCountsAreKept(twin, forNics, forIndex, d);
    hide v.Sound;
    if forall m | m in before[mid] :: NoStray(m, oldId, cons) {
      PhysicalAgrees(v, before[mid], mid);
      MovingKeepsMultisets(Keys(Physical(before[mid], oldId, twin.nics, mid)), Keys(cons), forIndex);
    } else {
      PhysicalGrows(v, before[mid], mid);
      SameNumber(Keys(Physical(before[mid], oldId, twin.nics, mid)), Keys(cons));
      if IndexAgrees(after[mid], newId, d.nics, mid, d.connections[mid]) {
        SameNumber(Keys(Physical(after[mid], newId, d.nics, mid)), Keys(d.connections[mid]));
        assert false;
      }
    }
  }

  lemma SameNumber(a: seq<Key>, b: seq<Key>)
    requires multiset(a) == multiset(b)
    ensures |a| == |b|
  {
    assert |multiset(a)| == |a| && |multiset(b)| == |b|;
  }

  /** Some run of the migration, whatever the first two translations are. */
  lemma SomeMigration(twin: Config, twinVendor: Vendor, nics: seq<Nic>, vendor: Vendor, before: map<string, seq<Nic>>,
                      forNics: map<string, Nic>, forIndex: map<string, Nic>)
    returns (d: Config, after: map<string, seq<Nic>>, forMachines: map<string, Nic>)
    requires Translation(nics, vendor, twinVendor, forNics) && Translation(nics, vendor, twinVendor, forIndex)
    requires Adoptable(twin, twinVendor, nics, vendor) && twin.connections.Keys <= before.Keys
    ensures Migrated(twin, twinVendor, nics, vendor, d, before, after, forNics, forIndex, forMachines)
  {
    hide Translation, CanTranslate, TargetNames, Adopted, ConnectedNames, AllMovable, AdjustedNics;
    TranslationNames(nics, vendor, twinVendor, forIndex);
    d := SomeAdoption(twin, forNics, forIndex);
    AdoptedIsMovable(twin, nics, vendor, twinVendor, forNics, forIndex, d);
    forMachines := SomeTranslation(d.nics, vendor, twinVendor);
    TranslationNames(d.nics, vendor, twinVendor, forMachines);
    after := map mid | mid in before ::
      if mid in twin.connections then AdjustedNics(before[mid], twin.connections[mid], forMachines) else before[mid];
    forall mid | mid in twin.connections ensures AllMovable(before[mid], twin.connections[mid], forMachines) {
      ConnectedAreMovable(twin.connections, mid, before[mid], forMachines);
    }
  }

  /** A connection whose port is not among the ports of the switch is none that a machine could report. */
  lemma DanglingDisagrees(machineNics: seq<Nic>, id: string, d: Config, mid: string, con: Connection)
    requires mid in d.connections && con in d.connections[mid] && !Has(d.nics, con.nic.name, con.nic.identifier)
    ensures !IndexAgrees(machineNics, id, d.nics, mid, d.connections[mid])
  {
    hide Physical, Keys;
    if IndexAgrees(machineNics, id, d.nics, mid, d.connections[mid]) {
      KeysMember(d.connections[mid], KeyOf(con.nic));
      IndexedIsReported(machineNics, id, d.nics, mid, d.connections[mid], KeyOf(con.nic));
      var p :| p in Physical(machineNics, id, d.nics, mid) && KeyOf(p.nic) == KeyOf(con.nic);
      PhysicalExactly(machineNics, id, d.nics, mid, p);
      assert false;
    }
  }

  lemma AmbiguousMigrationDisagrees(twin: Config, twinVendor: Vendor, nics: seq<Nic>, newId: string, vendor: Vendor,
                                    before: map<string, seq<Nic>>)
    returns (d: Config, after: map<string, seq<Nic>>,
             forNics: map<string, Nic>, forIndex: map<string, Nic>, forMachines: map<string, Nic>)
    requires Fresh(nics, newId) && Adoptable(twin, twinVendor, nics, vendor) && twin.connections.Keys <= before.Keys
    requires !Unambiguous(nics, vendor, twinVendor, ConnectedNames(twin.connections))
    ensures Migrated(twin, twinVendor, nics, vendor, d, before, after, forNics, forIndex, forMachines)
    ensures !AllAgree(twin.connections, newId, d, after)
  {
    hide Translation, CanTranslate, TargetNames, ConnectedNames, Unambiguous, ListsSorted, AdoptedNics, IndexAgrees;
    var e;
    forNics, forIndex, e := AmbiguousAdoptionCanDangle(twin, nics, vendor, twinVendor);
    d, after, forMachines := SomeMigration(twin, twinVendor, nics, vendor, before, forNics, forIndex);
    AdoptedIndexDangles(twin, nics, vendor, twinVendor, forNics, forIndex, e, d);
    var mid, con :| mid in d.connections && con in d.connections[mid] && !Has(d.nics, con.nic.name, con.nic.identifier);
    DanglingDisagrees(after[mid], newId, d, mid, con);
  }

  /** Which connections dangle depends on the two translations only. */
  lemma AdoptedIndexDangles(twin: Config, nics: seq<Nic>, source: Vendor, target: Vendor,
                            forNics: map<string, Nic>, forIndex: map<string, Nic>, e: Config, d: Config)
    requires NoDuplicates(nics) && (forall n | n in nics :: n.identifier != "")
    requires Translation(nics, source, target, forNics) && Translation(nics, source, target, forIndex)
    requires Adopted(twin, forNics, forIndex, e) && !Consistent(e) && Adopted(twin, forNics, forIndex, d)
    ensures exists mid, con | mid in d.connections && con in d.connections[mid] ::
            !Has(d.nics, con.nic.name, con.nic.identifier)
  {
    hide Translation, ListsSorted, AdoptedNics, Has;
    AdoptedNicsAreDistinct(twin, nics, source, target, forNics, e.nics);
    assert e.connections == d.connections;
    var mid, con :| mid in e.connections && con in e.connections[mid]
                    && !(con.nic.identifier != "" && Has(e.nics, con.nic.name, con.nic.identifier));
    var t := AdoptedIndexEntry(twin.connections, forIndex, e.connections, mid, con);
    EntryOf(nics, source, target, forIndex, t);
    AdoptedPort(twin, forNics, e.nics, con.nic.name, con.nic.identifier);
    AdoptedPort(twin, forNics, d.nics, con.nic.name, con.nic.identifier);
  }

  /**
   In every run of the migration the physical connections of all machines agree with the adopted index
   - by name, identifier and hardware address, each as often - if and only if no two ports of the new
   switch take the name of a connected port, and no neighbor elsewhere is taken for a connection.
   */
  lemma MigrationAgreesExactly(twin: Config, oldId: string, twinVendor: Vendor, nics: seq<Nic>, newId: string,
                               vendor: Vendor,
                               before: map<string, seq<Nic>>)
    requires Settled(twin, oldId, newId, before) && Fresh(nics, newId) && Adoptable(twin, twinVendor, nics, vendor)
    ensures Unambiguous(nics, vendor, twinVendor, ConnectedNames(twin.connections))
            && NoStrays(twin, oldId, before) <==>
            forall d, after, forNics, forIndex, forMachines |
              Migrated(twin, twinVendor, nics, vendor, d, before, after, forNics, forIndex, forMachines) ::
              AllAgree(twin.connections, newId, d, after)
  {
    hide Translation, TargetNames, ConnectedNames, Unambiguous, NoStray, IndexAgrees, Plausible, Migrated;
    if !Unambiguous(nics, vendor, twinVendor, ConnectedNames(twin.connections)) {
      var d, after, forNics, forIndex, forMachines :=
        AmbiguousMigrationDisagrees(twin, twinVendor, nics, newId, vendor, before);
    } else {
      forall d, after, forNics, forIndex, forMachines |
        Migrated(twin, twinVendor, nics, vendor, d, before, after, forNics, forIndex, forMachines)
        ensures AllAgree(twin.connections, newId, d, after) <==> NoStrays(twin, oldId, before)
      {
        forall mid | mid in twin.connections
          ensures mid in d.connections && mid in after
          ensures IndexAgrees(after[mid], newId, d.nics, mid, d.connections[mid]) <==>
                  forall m | m in before[mid] :: NoStray(m, oldId, twin.connections[mid])
        {
          MachineAgrees(twin, oldId, twinVendor, nics, newId, vendor, d, before, after, forNics, forIndex, forMachines,
            mid);
        }
      }
      var out := SomeTranslation(nics, vendor, twinVendor);
      var d, after, forMachines := SomeMigration(twin, twinVendor, nics, vendor, before, out, out);
    }
  }

  // ---------- two leaves with the same port names ----------

  function Port(identifier: string, hostname: string): Nic {
    Nic("", "swp1", identifier, "", hostname, [])
  }

  function OneConnection(): Connections {
    map["m" := [Connection(Port("a1", "leaf01"), "m")]]
  }

  /** A machine with a nic at each leaf of its rack. */
  function AtTwoLeaves(): seq<Nic> {
    [Nic("", "eth0", "eth0", "", "", [Port("a1", "leaf01")]), Nic("", "eth1", "eth1", "", "", [Port("b1", "leaf02")])]
  }

  lemma LeavesAgree()
    ensures IndexAgrees(AtTwoLeaves(), "leaf01", [Port("a1", "leaf01")], "m", OneConnection()["m"])
  {
    var port, ms := Port("a1", "leaf01"), AtTwoLeaves();
    assert ms[0].neighbors[0] == port && |ms[1].neighbors| == 1 && ms[1].neighbors[0].hostname == "leaf02";
    ReportsExactly(ms[0], "leaf01", port);
    ReportsExactly(ms[1], "leaf01", port);
    OnePortSeen(ms, "leaf01", port, "m");
  }

  lemma LeavesAreSettled()
    ensures Settled(Config([Port("a1", "leaf01")], OneConnection()), "leaf01", "leaf03", map["m" := AtTwoLeaves()])
  {
    LeavesAgree();
    hide IndexAgrees;
    var port, ms := Port("a1", "leaf01"), AtTwoLeaves();
    forall m | m in ms ensures Plausible(m, "leaf01", [port], "leaf03") {
      assert port in [port];
      assert m == ms[0] || m == ms[1];
    }
  }

  lemma OnlyTarget(identifier: string, hostname: string, vendor: Vendor)
    ensures ByKey([Port(identifier, hostname)], Name).Keys == {"swp1"}
    ensures TargetNames([Port(identifier, hostname)], vendor, vendor) == {"swp1"}
  {
    OnePort([Port(identifier, hostname)], Name);
  }

  lemma LeafIsAdoptable(vendor: Vendor)
    ensures var twin, nics := Config([Port("a1", "leaf01")], OneConnection()), [Port("c1", "leaf03")];
            && Fresh(nics, "leaf03") && Adoptable(twin, vendor, nics, vendor)
            && Unambiguous(nics, vendor, vendor, ConnectedNames(twin.connections))
  {
    OnlyTarget("a1", "leaf01", vendor);
    OnlyTarget("c1", "leaf03", vendor);
    hide ByKey, TargetNames, NewName, Translatable;
    forall name | name in ConnectedNames(OneConnection()) ensures name == "swp1" {
    }
  }

  lemma OtherLeafIsStray(nicMap: map<string, Nic>)
    requires "swp1" in nicMap && nicMap["swp1"].hostname == "leaf03"
    ensures !NoStray(AtTwoLeaves()[1], "leaf01", OneConnection()["m"])
    ensures AdjustedNics(AtTwoLeaves(), OneConnection()["m"], nicMap)[1].neighbors == [nicMap["swp1"]]
  {
    var cons, b := OneConnection()["m"], AtTwoLeaves()[1].neighbors[0];
    assert cons[0].nic.name == "swp1" && cons[0].nic.mac == "" && NicInConnections("swp1", "", cons);
    assert b in AtTwoLeaves()[1].neighbors;
  }

  /**
   The two leaves of a rack report the same port name and no hardware address: the machine's neighbor
   on the leaf that stays is taken for a connection of the leaf that is migrated, and overwritten.
   So index and machine disagree after some migration, although all ports keep their names.
   */
  lemma OtherLeafIsOverwritten(vendor: Vendor, nicMap: map<string, Nic>)
    requires "swp1" in nicMap && nicMap["swp1"].hostname == "leaf03"
    ensures var twin, nics, before :=
            Config([Port("a1", "leaf01")], OneConnection()), [Port("c1", "leaf03")], map["m" := AtTwoLeaves()];
            && AdjustedNics(before["m"], twin.connections["m"], nicMap)[1].neighbors == [nicMap["swp1"]]
            && exists d, after, forNics, forIndex, forMachines ::
                 && Migrated(twin, vendor, nics, vendor, d, before, after, forNics, forIndex, forMachines)
                 && !AllAgree(twin.connections, "leaf03", d, after)
  {
    var twin, nics, before := Config([Port("a1", "leaf01")], OneConnection()), [Port("c1", "leaf03")],
      map["m" := AtTwoLeaves()];
    LeavesAreSettled();
    LeafIsAdoptable(vendor);
    OtherLeafIsStray(nicMap);
    assert AtTwoLeaves()[1] in before["m"] && "m" in twin.connections;
    assert !NoStrays(twin, "leaf01", before);
    hide Settled, Fresh, Adoptable, Unambiguous, ConnectedNames, NoStrays, Migrated, AllAgree, AdjustedNics;
    MigrationAgreesExactly(twin, "leaf01", vendor, nics, "leaf03", vendor, before);
  }

  lemma OnePort(nics: seq<Nic>, key: Nic -> string)
    requires |nics| == 1 && key(nics[0]) != ""
    ensures ByKey(nics, key) == map[key(nics[0]) := nics[0]]
  {
    assert ByKey([], key) == map[] && nics[..0] == [];
  }

  lemma OnePortSeen(ms: seq<Nic>, id: string, port: Nic, mid: string)
    requires |ms| == 2 && Reports(ms[0], id, port) && !Reports(ms[1], id, port)
    ensures Physical(ms, id, [port], mid) == [Connection(port, mid)]
  {
    hide Reports;
    assert [port][..0] == [] && ms[..1][..0] == [] && ms[..1][0] == ms[0];
    assert forall m: Nic :: Seen(m, id, [], mid) == [];
    assert Seen(ms[0], id, [port], mid) == [Connection(port, mid)] && Seen(ms[1], id, [port], mid) == [];
    assert Physical([], id, [port], mid) == [];
    assert Physical(ms[..1], id, [port], mid) == [Connection(port, mid)];
  }
}
