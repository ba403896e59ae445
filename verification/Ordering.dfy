/**
 Strings in Go's order, compared character by character, and sorting by a string key.
 */
module Ordering {
  predicate Less(a: string, b: string) {
    b != "" && (a == "" || a[0] < b[0] || (a[0] == b[0] && Less(a[1..], b[1..])))
  }

  lemma {:induction false} LessIsTotal(a: string, b: string)
    ensures Less(a, b) || a == b || Less(b, a)
    ensures !(Less(a, b) && Less(b, a)) && !Less(a, a)
  {
    if a != "" {
      LessIsTotal(a[1..], a[1..]);
    }
    if a != "" && b != "" && a[0] == b[0] {
      LessIsTotal(a[1..], b[1..]);
      assert a == [a[0]] + a[1..] && b == [b[0]] + b[1..];
    }
  }

  lemma {:induction false} LessIsTransitive(a: string, b: string, c: string)
    requires Less(a, b) && Less(b, c)
    ensures Less(a, c)
  {
    if a != "" && a[0] == b[0] == c[0] {
      LessIsTransitive(a[1..], b[1..], c[1..]);
    }
  }

  function Identity(s: string): string {
    s
  }

  function Elements(s: seq<string>): set<string> {
    set x | x in s
  }

  predicate InOrder<T>(a: T, b: T, key: T -> string) {
    key(a) == key(b) || Less(key(a), key(b))
  }

  predicate SortedBy<T>(s: seq<T>, key: T -> string) {
    forall i, j :: 0 <= i < j < |s| ==> InOrder(s[i], s[j], key)
  }

  function Inserted<T>(x: T, s: seq<T>, key: T -> string): seq<T> {
    if s == [] then [x]
    else if Less(key(s[0]), key(x)) then [s[0]] + Inserted(x, s[1..], key)
    else [x] + s
  }

  /** The library sort: what matters is that the result is sorted and has the same elements. */
  function Sort<T>(s: seq<T>, key: T -> string): seq<T> {
    if s == [] then [] else Inserted(s[0], Sort(s[1..], key), key)
  }

  lemma {:induction false} InsertedKeepsElements<T>(x: T, s: seq<T>, key: T -> string)
    ensures multiset(Inserted(x, s, key)) == multiset(s) + multiset{x}
  {
    if s != [] && Less(key(s[0]), key(x)) {
      InsertedKeepsElements(x, s[1..], key);
      assert s == [s[0]] + s[1..];
    }
  }

  lemma {:induction false} InsertedFrom<T>(x: T, s: seq<T>, key: T -> string, y: T)
    requires y in Inserted(x, s, key) && y != x
    ensures y in s
  {
    if s != [] && Less(key(s[0]), key(x)) && y != s[0] {
      InsertedFrom(x, s[1..], key, y);
    }
  }

  lemma PrependSmallest<T>(x: T, s: seq<T>, key: T -> string)
    requires SortedBy(s, key) && forall y | y in s :: InOrder(x, y, key)
    ensures SortedBy([x] + s, key)
  {
  }

  lemma {:induction false} InsertedIsSorted<T>(x: T, s: seq<T>, key: T -> string)
    requires SortedBy(s, key)
    ensures SortedBy(Inserted(x, s, key), key)
  {
    if s != [] {
      if Less(key(s[0]), key(x)) {
        InsertedIsSorted(x, s[1..], key);
        InsertedKeepsElements(x, s[1..], key);
        forall y | y in Inserted(x, s[1..], key) ensures InOrder(s[0], y, key) {
          if y != x {
            InsertedFrom(x, s[1..], key, y);
            var i :| 0 <= i < |s[1..]| && s[1..][i] == y;
            assert InOrder(s[0], s[i + 1], key);
          }
        }
        PrependSmallest(s[0], Inserted(x, s[1..], key), key);
      } else {
        LessIsTotal(key(s[0]), key(x));
        forall y | y in s ensures InOrder(x, y, key) {
          var i :| 0 <= i < |s| && s[i] == y;
          if i > 0 {
            assert InOrder(s[0], y, key);
            if Less(key(x), key(s[0])) && Less(key(s[0]), key(y)) {
              LessIsTransitive(key(x), key(s[0]), key(y));
            }
          }
        }
        PrependSmallest(x, s, key);
      }
    }
  }

  lemma {:induction false} SortIsSorted<T>(s: seq<T>, key: T -> string)
    ensures SortedBy(Sort(s, key), key) && multiset(Sort(s, key)) == multiset(s)
  {
    if s != [] {
      SortIsSorted(s[1..], key);
      InsertedIsSorted(s[0], Sort(s[1..], key), key);
      InsertedKeepsElements(s[0], Sort(s[1..], key), key);
      assert s == [s[0]] + s[1..];
    }
  }

  // ---------- stability ----------

  /** Among elements with the same key, the order is that of another key. */
  predicate SortedWithin<T>(s: seq<T>, key: T -> string, within: T -> string) {
    forall i, j :: 0 <= i < j < |s| && key(s[i]) == key(s[j]) ==> InOrder(s[i], s[j], within)
  }

  lemma {:induction false} InsertedKeepsWithin<T>(x: T, s: seq<T>, key: T -> string, within: T -> string)
    requires SortedWithin(s, key, within) && forall y | y in s && key(y) == key(x) :: InOrder(x, y, within)
    ensures SortedWithin(Inserted(x, s, key), key, within)
  {
    if s != [] && Less(key(s[0]), key(x)) {
      InsertedKeepsWithin(x, s[1..], key, within);
      LessIsTotal(key(s[0]), key(x));
      var rest := Inserted(x, s[1..], key);
      forall k | 0 <= k < |rest| && key(rest[k]) == key(s[0]) ensures InOrder(s[0], rest[k], within) {
        InsertedFrom(x, s[1..], key, rest[k]);
        var i :| 0 <= i < |s[1..]| && s[1..][i] == rest[k];
        assert s[i + 1] == rest[k];
      }
    }
  }

  /** Sorting is stable: what was in the order of another key still is, among equal elements. */
  lemma {:induction false} SortIsStable<T>(s: seq<T>, key: T -> string, within: T -> string)
    requires SortedBy(s, within)
    ensures SortedWithin(Sort(s, key), key, within)
  {
    if s != [] {
      var rest := Sort(s[1..], key);
      SortIsStable(s[1..], key, within);
      forall y | y in rest ensures InOrder(s[0], y, within) {
        SortMembers(s[1..], key, y);
        var i :| 0 <= i < |s[1..]| && s[1..][i] == y;
        assert s[i + 1] == y;
      }
      InsertedKeepsWithin(s[0], rest, key, within);
    }
  }

  // ---------- distinct keys and map orders ----------

  predicate DistinctBy<T>(s: seq<T>, key: T -> string) {
    forall i, j :: 0 <= i < j < |s| ==> key(s[i]) != key(s[j])
  }

  lemma {:induction false} InsertedIsDistinct<T>(x: T, s: seq<T>, key: T -> string, id: T -> string)
    requires DistinctBy([x] + s, id)
    ensures DistinctBy(Inserted(x, s, key), id)
  {
    if s != [] && Less(key(s[0]), key(x)) {
      var rest := Inserted(x, s[1..], key);
      assert [x] + s[1..] == ([x] + s)[0..1] + ([x] + s)[2..];
      InsertedIsDistinct(x, s[1..], key, id);
      forall k | 0 <= k < |rest| ensures id(rest[k]) != id(s[0]) {
        if rest[k] == x {
          assert ([x] + s)[0] == x && ([x] + s)[1] == s[0];
        } else {
          InsertedFrom(x, s[1..], key, rest[k]);
          var i :| 0 <= i < |s[1..]| && s[1..][i] == rest[k];
          assert ([x] + s)[i + 2] == rest[k] && ([x] + s)[1] == s[0];
        }
      }
    }
  }

  lemma SortMembers<T>(s: seq<T>, key: T -> string, x: T)
    ensures x in Sort(s, key) <==> x in s
  {
    SortIsSorted(s, key);
    assert x in multiset(Sort(s, key)) <==> x in multiset(s);
  }

  lemma {:induction false} SortIsDistinct<T>(s: seq<T>, key: T -> string, id: T -> string)
    requires DistinctBy(s, id)
    ensures DistinctBy(Sort(s, key), id)
  {
    if s != [] {
      var rest := Sort(s[1..], key);
      SortIsDistinct(s[1..], key, id);
      forall k | 0 <= k < |rest| ensures id(rest[k]) != id(s[0]) {
        SortMembers(s[1..], key, rest[k]);
        var i :| 0 <= i < |s[1..]| && s[1..][i] == rest[k];
        assert s[i + 1] == rest[k];
      }
      InsertedIsDistinct(s[0], rest, key, id);
    }
  }

  /** An order in which a loop over a map with these keys may visit them. */
  ghost predicate IsOrder(order: seq<string>, keys: set<string>) {
    DistinctBy(order, Identity) && forall k :: k in order <==> k in keys
  }

  function InTheOrder<T>(order: seq<string>, m: map<string, T>): seq<T>
    requires forall k | k in order :: k in m
  {
    seq(|order|, i requires 0 <= i < |order| => m[order[i]])
  }

  /** The values of a map, collected in some order of its keys and then sorted. */
  ghost predicate ListsSorted<T>(s: seq<T>, m: map<string, T>, key: T -> string) {
    exists order: seq<string> :: IsOrder(order, m.Keys) && s == Sort(InTheOrder(order, m), key)
  }

  /** Loops over maps meet every key once, in whatever order. */
  method Collect<T>(m: map<string, T>) returns (s: seq<T>, ghost order: seq<string>)
    ensures IsOrder(order, m.Keys) && s == InTheOrder(order, m)
    ensures exists o: seq<string> :: IsOrder(o, m.Keys) && s == InTheOrder(o, m)
  {
    s, order := [], [];
    var todo := m.Keys;
    while todo != {}
      invariant todo <= m.Keys && IsOrder(order, m.Keys - todo)
      invariant s == InTheOrder(order, m)
      decreases todo
    {
      var k :| k in todo;
      s, order, todo := s + [m[k]], order + [k], todo - {k};
    }
  }

  /** What a sorted listing of a map holds: each value, as often as it has keys. */
  lemma ListedValues<T>(s: seq<T>, m: map<string, T>, key: T -> string, x: T)
    requires ListsSorted(s, m, key)
    ensures x in s <==> exists k | k in m :: m[k] == x
  {
    var order: seq<string> :| IsOrder(order, m.Keys) && s == Sort(InTheOrder(order, m), key);
    var values := InTheOrder(order, m);
    SortMembers(values, key, x);
    if k :| k in m && m[k] == x {
      var i :| 0 <= i < |order| && order[i] == k;
      assert values[i] == x;
    }
  }

  lemma ListedIsDistinct<T>(s: seq<T>, m: map<string, T>, key: T -> string, id: T -> string)
    requires ListsSorted(s, m, key)
    requires forall k, l | k in m && l in m && k != l :: id(m[k]) != id(m[l])
    ensures SortedBy(s, key) && DistinctBy(s, id) && |s| == |m|
  {
    var order: seq<string> :| IsOrder(order, m.Keys) && s == Sort(InTheOrder(order, m), key);
    var values := InTheOrder(order, m);
    assert DistinctBy(values, id);
    SortIsSorted(values, key);
    SortIsDistinct(values, key, id);
    OrderSize(order, m.Keys);
    assert |multiset(s)| == |multiset(values)|;
  }

  lemma {:induction false} OrderSize(order: seq<string>, keys: set<string>)
    requires IsOrder(order, keys)
    ensures |order| == |keys|
  {
    if order != [] {
      var rest := order[1..];
      forall k ensures k in rest <==> k in keys - {order[0]} {
        assert k in order <==> k == order[0] || k in rest;
      }
      OrderSize(rest, keys - {order[0]});
    } else {
      assert forall k :: k !in keys;
    }
  }
}
