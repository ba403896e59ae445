/**
 The shared mutex: a document per key, inserted by whoever gets the lock and deleted by unlock or, once
 it has expired, by the clean-up loop of any server. A list of actions is one interleaving.
 */
module SharedMutex {
  import opened Wrappers

  /** The owner is not stored; it is here to say whose document it is. */
  datatype Doc = Doc(expiresAt: int, owner: nat)

  type Docs = map<string, Doc>

  // ---------- the table ----------

  function Inserted(docs: Docs, key: string, doc: Doc): Docs {
    if key in docs then docs else docs[key := doc]
  }

  function WithoutExpired(docs: Docs, time: int): Docs {
    map key | key in docs && !(docs[key].expiresAt < time) :: docs[key]
  }

  class MutexTable {
    var docs: Docs

    constructor ()
      ensures docs == map[]
    {
      docs := map[];
    }

    method Insert(key: string, doc: Doc) returns (ok: bool)
      modifies this
      ensures ok <==> key !in old(docs)
      ensures docs == Inserted(old(docs), key, doc)
    {
      ok := key !in docs;
      if ok {
        docs := docs[key := doc];
      }
    }

    method Unlock(key: string)
      modifies this
      ensures docs == old(docs) - {key}
    {
      docs := docs - {key};
    }

    /** One round of the expire loop, document by document in any order. */
    method DeleteExpired(time: int)
      modifies this
      ensures docs == WithoutExpired(old(docs), time)
    {
      var todo := docs.Keys;
      while todo != {}
        invariant todo <= docs.Keys <= old(docs).Keys
        invariant forall key | key in docs :: docs[key] == old(docs)[key]
        invariant forall key | key in old(docs) && key !in todo :: key in docs <==> !(old(docs)[key].expiresAt < time)
        decreases todo
      {
        var key :| key in todo;
        if docs[key].expiresAt < time {
          docs := docs - {key};
        }
        todo := todo - {key};
      }
    }
  }

  // ---------- many processes ----------

  datatype Process =
    | Trying(key: string, expiresAt: int)    // the document is built, or the process waits for a change
    | Critical(key: string, expiresAt: int)  // the document was inserted

  datatype State = State(docs: Docs, now: int, processes: map<nat, Process>)

  datatype Action =
    | BuildDoc(p: nat, key: string, expiration: int)  // at first, and again for every retry
    | TryInsert(p: nat)
    | Unlock(p: nat)
    | GiveUp(p: nat)       // acquire timeout, or the unlock request was lost
    | Expire(time: int)    // time was read before the deletion is executed
    | Tick(duration: nat)

  const INITIAL := State(map[], 0, map[])

  function Next(s: State, a: Action): State {
    match a
    case BuildDoc(p, key, expiration) =>
      if p in s.processes && s.processes[p].Critical? then s
      else s.(processes := s.processes[p := Trying(key, s.now + expiration)])
    case TryInsert(p) =>
      if p in s.processes && s.processes[p].Trying? && s.processes[p].key !in s.docs then
        var Trying(key, expiresAt) := s.processes[p];
        s.(docs := Inserted(s.docs, key, Doc(expiresAt, p)), processes := s.processes[p := Critical(key, expiresAt)])
      else s
    case Unlock(p) =>
      if p in s.processes && s.processes[p].Critical?
      then s.(docs := s.docs - {s.processes[p].key}, processes := s.processes - {p})
      else s
    case GiveUp(p) => s.(processes := s.processes - {p})
    case Expire(time) => if time <= s.now then s.(docs := WithoutExpired(s.docs, time)) else s
    case Tick(duration) => s.(now := s.now + duration)
  }

  ghost function Run(actions: seq<Action>): State {
    if actions == [] then INITIAL else Next(Run(actions[..|actions| - 1]), actions[|actions| - 1])
  }

  predicate Holds(s: State, p: nat, key: string) {
    p in s.processes && s.processes[p].Critical? && s.processes[p].key == key
  }

  /** Nobody is in the critical section of the key longer than its document is valid. */
  ghost predicate Timely(s: State, key: string) {
    forall p | Holds(s, p, key) :: s.now <= s.processes[p].expiresAt
  }

  ghost predicate AlwaysTimely(actions: seq<Action>, key: string) {
    forall i :: 0 <= i <= |actions| ==> Timely(Run(actions[..i]), key)
  }

  /** Whoever holds the key owns its document. */
  ghost predicate Owned(s: State, key: string) {
    forall p | Holds(s, p, key) :: key in s.docs && s.docs[key] == Doc(s.processes[p].expiresAt, p)
  }

  lemma NextKeepsOwned(s: State, a: Action, key: string)
    requires Owned(s, key) && Timely(s, key)
    ensures Owned(Next(s, a), key)
  {
    var t := Next(s, a);
    forall p | Holds(t, p, key) ensures key in t.docs && t.docs[key] == Doc(t.processes[p].expiresAt, p) {
      if Holds(s, p, key) {
        assert key in s.docs && s.docs[key].owner == p;
      }
    }
  }

  lemma {:induction false} RunKeepsOwned(actions: seq<Action>, key: string)
    requires AlwaysTimely(actions, key)
    ensures Owned(Run(actions), key)
  {
    if actions != [] {
      var front := actions[..|actions| - 1];
      assert forall i :: 0 <= i <= |front| ==> front[..i] == actions[..i];
      RunKeepsOwned(front, key);
      assert front[..|front|] == front;
      NextKeepsOwned(Run(front), actions[|actions| - 1], key);
    }
  }

  /** In every interleaving in which holders of the key leave in time, the key has one holder at most. */
  lemma MutualExclusion(actions: seq<Action>, key: string, p: nat, q: nat)
    requires AlwaysTimely(actions, key)
    requires Holds(Run(actions), p, key) && Holds(Run(actions), q, key)
    ensures p == q
  {
    RunKeepsOwned(actions, key);
  }

  // ---------- leaving in time is what it takes ----------

  lemma RunOneMore(actions: seq<Action>, a: Action)
    ensures Run(actions + [a]) == Next(Run(actions), a)
  {
    assert (actions + [a])[..|actions|] == actions;
  }

  predicate Fresh(s: State, q: nat) {
    q in s.processes ==> s.processes[q].Trying?
  }

  /** Time passes, the documents of that moment expire, and a process takes the lock. */
  function WaitAndTake(now: int, duration: nat, key: string, q: nat, expiration: int): seq<Action> {
    [Tick(duration), Expire(now + duration), BuildDoc(q, key, expiration), TryInsert(q)]
  }

  /** Once the document of a key has expired anybody gets in, whoever still holds the key. */
  lemma ExpiredKeyIsTaken(actions: seq<Action>, key: string, q: nat, duration: nat, expiration: int)
    requires var s := Run(actions);
             Fresh(s, q) && (key in s.docs ==> s.docs[key].expiresAt < s.now + duration)
    ensures var s := Run(actions);
            var later := s.now + duration;
            Run(actions + WaitAndTake(s.now, duration, key, q, expiration)) ==
            State(WithoutExpired(s.docs, later)[key := Doc(later + expiration, q)], later,
                  s.processes[q := Critical(key, later + expiration)])
  {
    var s := Run(actions);
    var a1 := actions + [Tick(duration)];
    var a2 := a1 + [Expire(s.now + duration)];
    var a3 := a2 + [BuildDoc(q, key, expiration)];
    hide Run;
    RunOneMore(actions, Tick(duration));
    RunOneMore(a1, Expire(s.now + duration));
    RunOneMore(a2, BuildDoc(q, key, expiration));
    RunOneMore(a3, TryInsert(q));
    assert actions + WaitAndTake(s.now, duration, key, q, expiration) == a3 + [TryInsert(q)];
  }

  /** The holder does nothing for a while, neither unlock nor disappear. */
  predicate Stays(rest: seq<Action>, p: nat) {
    forall i | 0 <= i < |rest| :: rest[i] != Unlock(p) && rest[i] != GiveUp(p)
  }

  /** A holder that stays is alone until its document expires. */
  lemma {:induction false} StaysAlone(actions: seq<Action>, rest: seq<Action>, key: string, p: nat)
    requires AlwaysTimely(actions, key) && Holds(Run(actions), p, key) && Stays(rest, p)
    requires Run(actions + rest).now <= Run(actions).processes[p].expiresAt
    ensures Owned(Run(actions + rest), key)
    ensures Holds(Run(actions + rest), p, key)
    ensures Run(actions + rest).processes[p].expiresAt == Run(actions).processes[p].expiresAt
  {
    if rest == [] {
      assert actions + rest == actions;
      RunKeepsOwned(actions, key);
    } else {
      var front, a := rest[..|rest| - 1], rest[|rest| - 1];
      assert actions + rest == (actions + front) + [a];
      RunOneMore(actions + front, a);
      StaysAlone(actions, front, key, p);
      hide Run;
      NextKeepsOwned(Run(actions + front), a, key);
    }
  }

  lemma SomebodyElse(s: State, p: nat) returns (q: nat)
    ensures q !in s.processes && q != p
  {
    q := Above(s.processes.Keys + {p});
  }

  lemma {:induction false} Above(numbers: set<nat>) returns (q: nat)
    ensures forall n | n in numbers :: n < q
  {
    q := 0;
    if numbers != {} {
      var n :| n in numbers;
      var rest := Above(numbers - {n});
      assert forall m | m in numbers :: m == n || m in numbers - {n};
      q := if n < rest then rest else n + 1;
    }
  }

  ghost predicate JoinedBy(actions: seq<Action>, rest: seq<Action>, key: string, p: nat, q: nat, limit: int) {
    var t := Run(actions + rest);
    Stays(rest, p) && t.now <= limit && q != p && Holds(t, p, key) && Holds(t, q, key)
  }

  lemma OverstayIsJoined(actions: seq<Action>, key: string, p: nat, limit: int) returns (rest: seq<Action>, q: nat)
    requires AlwaysTimely(actions, key) && Holds(Run(actions), p, key) && Run(actions).now <= limit
    requires limit > Run(actions).processes[p].expiresAt
    ensures JoinedBy(actions, rest, key, p, q, limit)
  {
    RunKeepsOwned(actions, key);
    hide Run, AlwaysTimely, WithoutExpired;
    var s := Run(actions);
    q := SomebodyElse(s, p);
    rest := WaitAndTake(s.now, limit - s.now, key, q, 0);
    ExpiredKeyIsTaken(actions, key, q, limit - s.now, 0);
  }

  lemma InTimeIsNotJoined(actions: seq<Action>, rest: seq<Action>, key: string, p: nat, q: nat, limit: int)
    requires AlwaysTimely(actions, key) && Holds(Run(actions), p, key)
    requires JoinedBy(actions, rest, key, p, q, limit)
    ensures limit > Run(actions).processes[p].expiresAt
  {
    hide Run, AlwaysTimely;
    if limit <= Run(actions).processes[p].expiresAt {
      StaysAlone(actions, rest, key, p);
    }
  }

  /**
   Leaving in time is exactly what exclusion takes: of a run that was timely so far, in which the
   holder stays until some limit, another process can join the holder if and only if the limit lies
   beyond the expiration of its document.
   */
  lemma ExclusionExactly(actions: seq<Action>, key: string, p: nat, limit: int)
    requires AlwaysTimely(actions, key) && Holds(Run(actions), p, key) && Run(actions).now <= limit
    ensures limit > Run(actions).processes[p].expiresAt <==> exists rest, q :: JoinedBy(actions, rest, key, p, q, limit)
  {
    hide Run, AlwaysTimely, JoinedBy;
    if limit > Run(actions).processes[p].expiresAt {
      var rest, q := OverstayIsJoined(actions, key, p, limit);
    }
    if rest, q :| JoinedBy(actions, rest, key, p, q, limit) {
      InTimeIsNotJoined(actions, rest, key, p, q, limit);
    }
  }

  /** The late unlock of one of two holders deletes the document of the other, so yet another gets in. */
  lemma LateUnlockAdmitsAnother(actions: seq<Action>, key: string, p: nat, q: nat, r: nat, expiration: int)
    requires var s := Run(actions);
             p != q && Holds(s, p, key) && Holds(s, q, key) && Fresh(s, r)
    ensures var s, t := Run(actions), Run(actions + [Unlock(p), BuildDoc(r, key, expiration), TryInsert(r)]);
            && q != r && Holds(t, q, key) && Holds(t, r, key)
            && t.now == s.now && t.processes == (s.processes - {p})[r := Critical(key, s.now + expiration)]
  {
    var a1 := actions + [Unlock(p)];
    var a2 := a1 + [BuildDoc(r, key, expiration)];
    hide Run;
    RunOneMore(actions, Unlock(p));
    RunOneMore(a1, BuildDoc(r, key, expiration));
    RunOneMore(a2, TryInsert(r));
    assert actions + [Unlock(p), BuildDoc(r, key, expiration), TryInsert(r)] == a2 + [TryInsert(r)];
  }

  /** Process 0 takes the lock for ten seconds, overstays, and process 1 takes the lock. */
  function Overstay(key: string): seq<Action> {
    [BuildDoc(0, key, 10), TryInsert(0)] + WaitAndTake(0, 20, key, 1, 10)
  }

  lemma OverstayAdmitsTwo(key: string)
    ensures Run(Overstay(key)) ==
            State(map[key := Doc(30, 1)], 20, map[0 := Critical(key, 10), 1 := Critical(key, 30)])
  {
    var first := [BuildDoc(0, key, 10), TryInsert(0)];
    assert first == ([] + [BuildDoc(0, key, 10)]) + [TryInsert(0)];
    RunOneMore([], BuildDoc(0, key, 10));
    RunOneMore([] + [BuildDoc(0, key, 10)], TryInsert(0));
    assert Run([]) == INITIAL;
    hide Run;
    assert Run(first) == State(map[key := Doc(10, 0)], 0, map[0 := Critical(key, 10)]);
    ExpiredKeyIsTaken(first, key, 1, 20, 10);
  }

  /** Then process 0 unlocks and process 2 gets in as well: at the end both holders are in time. */
  lemma LateUnlockAdmitsTwo(key: string)
    ensures var s := Run(Overstay(key) + [Unlock(0), BuildDoc(2, key, 10), TryInsert(2)]);
            Holds(s, 1, key) && Holds(s, 2, key) && Timely(s, key)
  {
    hide Run, Overstay;
    OverstayAdmitsTwo(key);
    LateUnlockAdmitsAnother(Overstay(key), key, 0, 1, 2, 10);
  }
}
