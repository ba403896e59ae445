/**
 Size reservations: the check that decides whether a project may take one more machine of a size.
 */
module Reservations {
  datatype Reservation = Reservation(project: string, amount: int, size: string, partitions: seq<string>)

  function Max(a: int, b: int): int {
    if a >= b then a else b
  }

  function Allocated(byProject: map<string, seq<string>>, project: string): nat {
    if project in byProject then |byProject[project]| else 0
  }

  /** What is left of each reservation, negative when the project uses more than it reserved. */
  function Slack(byProject: map<string, seq<string>>, rs: seq<Reservation>): seq<int> {
    seq(|rs|, i requires 0 <= i < |rs| => rs[i].amount - Allocated(byProject, rs[i].project))
  }

  predicate HasUnused(byProject: map<string, seq<string>>, project: string, rs: seq<Reservation>) {
    exists r | r in rs :: r.project == project && Allocated(byProject, project) < r.amount
  }

  /** The running sum that is cut off at zero after every reservation. */
  function Clamped(xs: seq<int>): nat {
    if xs == [] then 0 else Max(Clamped(xs[..|xs| - 1]) + xs[|xs| - 1], 0)
  }

  /** The decision: an unused reservation of its own, or machines left beyond the running sum. */
  predicate Accepts(available: nat, project: string, byProject: map<string, seq<string>>, rs: seq<Reservation>) {
    HasUnused(byProject, project, rs) || Clamped(Slack(byProject, rs)) < available
  }

  method CheckSizeReservations(available: seq<string>, project: string, byProject: map<string, seq<string>>,
                               rs: seq<Reservation>) returns (ok: bool)
    ensures ok <==> Accepts(|available|, project, byProject, rs)
  {
    var amount := 0;
    ghost var xs := Slack(byProject, rs);
    for i := 0 to |rs|
      invariant amount == Clamped(xs[..i])
      invariant forall j :: 0 <= j < i ==> !(rs[j].project == project && Allocated(byProject, project) < rs[j].amount)
    {
      assert xs[..i + 1][..i] == xs[..i];
      amount := amount + rs[i].amount;
      var alreadyAllocated := Allocated(byProject, rs[i].project);
      if project == rs[i].project && alreadyAllocated < rs[i].amount {
        return true;
      }
      amount := Max(amount - alreadyAllocated, 0);
    }
    assert xs[..|rs|] == xs;
    ok := amount < |available|;
  }

  // ---------- single reservations ----------

  /**
   Without machines only a reservation of its own that is not used up lets a project in; without reservations
   a machine is enough; and one reservation of another project holds back what it leaves unused.
   */
  lemma SmallCases(available: nat, project: string, byProject: map<string, seq<string>>, rs: seq<Reservation>,
                   r: Reservation)
    ensures Accepts(0, project, byProject, rs) <==>
            exists own | own in rs ::
              own.project == project && (if project in byProject then |byProject[project]| else 0) < own.amount
    ensures Accepts(available, project, byProject, []) <==> available > 0
    ensures r.project != project ==>
              var used := if r.project in byProject then |byProject[r.project]| else 0;
              (Accepts(available, project, byProject, [r]) <==> available > 0 && available > r.amount - used)
  {
    var xs := Slack(byProject, [r]);
    assert xs[..0] == [] && Clamped(xs) == Max(xs[0], 0);
  }

  // ---------- closed form ----------

  function Sum(xs: seq<int>): int {
    if xs == [] then 0 else Sum(xs[..|xs| - 1]) + xs[|xs| - 1]
  }

  /** The positive slack, summed. */
  function Unused(xs: seq<int>): nat {
    if xs == [] then 0 else Unused(xs[..|xs| - 1]) + Max(xs[|xs| - 1], 0)
  }

  /** v is the largest sum of a suffix, the empty one included. */
  ghost predicate IsLargestSuffixSum(xs: seq<int>, v: int) {
    && (exists k :: 0 <= k <= |xs| && Sum(xs[k..]) == v)
    && (forall k :: 0 <= k <= |xs| ==> Sum(xs[k..]) <= v)
  }

  lemma SuffixOneMore(xs: seq<int>, k: nat)
    requires k < |xs|
    ensures Sum(xs[k..]) == Sum(xs[..|xs| - 1][k..]) + xs[|xs| - 1]
  {
    assert xs[k..][..|xs| - k - 1] == xs[..|xs| - 1][k..];
  }

  lemma {:induction false} ClampedIsLargestSuffixSum(xs: seq<int>)
    ensures IsLargestSuffixSum(xs, Clamped(xs))
  {
    if xs == [] {
      assert Sum(xs[0..]) == 0;
    } else {
      var n, front := |xs|, xs[..|xs| - 1];
      ClampedIsLargestSuffixSum(front);
      assert Sum(xs[n..]) == 0;
      forall k | 0 <= k <= n ensures Sum(xs[k..]) <= Clamped(xs) {
        if k < n {
          SuffixOneMore(xs, k);
        }
      }
      var k :| 0 <= k <= |front| && Sum(front[k..]) == Clamped(front);
      SuffixOneMore(xs, k);
      assert Sum(xs[if Clamped(xs) == 0 then n else k..]) == Clamped(xs);
    }
  }

  /** Nothing reserved comes before a project that uses more than it reserved. */
  ghost predicate NothingLost(xs: seq<int>) {
    forall i, j :: 0 <= i < j < |xs| ==> !(xs[i] > 0 && xs[j] < 0)
  }

  lemma {:induction false} UnusedIsZero(xs: seq<int>)
    ensures Unused(xs) == 0 <==> forall i :: 0 <= i < |xs| ==> xs[i] <= 0
  {
    if xs != [] {
      UnusedIsZero(xs[..|xs| - 1]);
    }
  }

  /** The clamped sum never exceeds what is unused, and reaches it exactly when nothing gets lost. */
  lemma {:induction false} ClampedVersusUnused(xs: seq<int>)
    ensures Clamped(xs) <= Unused(xs)
    ensures Clamped(xs) == Unused(xs) <==> NothingLost(xs)
  {
    if xs != [] {
      var front, x := xs[..|xs| - 1], xs[|xs| - 1];
      ClampedVersusUnused(front);
      UnusedIsZero(front);
      assert NothingLost(xs) <==> NothingLost(front) && (x < 0 ==> forall i :: 0 <= i < |front| ==> front[i] <= 0);
    }
  }

  // ---------- the order of the reservations ----------

  lemma {:induction false} UnusedAppend(xs: seq<int>, ys: seq<int>)
    ensures Unused(xs + ys) == Unused(xs) + Unused(ys)
  {
    if ys == [] {
      assert xs + ys == xs;
    } else {
      assert (xs + ys)[..|xs + ys| - 1] == xs + ys[..|ys| - 1];
      UnusedAppend(xs, ys[..|ys| - 1]);
    }
  }

  lemma {:induction false} UnusedIgnoresOrder(xs: seq<int>, ys: seq<int>)
    requires multiset(xs) == multiset(ys)
    ensures Unused(xs) == Unused(ys)
  {
    if xs == [] {
      assert |multiset(ys)| == |ys|;
    } else {
      var n, x := |xs| - 1, xs[|xs| - 1];
      assert x in multiset(xs) && xs == xs[..n] + [x];
      var i :| 0 <= i < |ys| && ys[i] == x;
      assert ys == ys[..i] + [x] + ys[i + 1..];
      assert multiset(xs[..n]) == multiset(xs) - multiset{x};
      assert multiset(ys[..i] + ys[i + 1..]) == multiset(ys) - multiset{x};
      UnusedIgnoresOrder(xs[..n], ys[..i] + ys[i + 1..]);
      UnusedAppend(ys[..i] + [x], ys[i + 1..]);
      UnusedAppend(ys[..i], [x]);
      UnusedAppend(ys[..i], ys[i + 1..]);
      assert [x][..0] == [];
    }
  }

  ghost predicate OrderDoesNotMatter(xs: seq<int>) {
    forall ys: seq<int> | multiset(ys) == multiset(xs) :: Clamped(ys) == Clamped(xs)
  }

  ghost predicate OneSign(xs: seq<int>) {
    (forall i :: 0 <= i < |xs| ==> xs[i] >= 0) || (forall i :: 0 <= i < |xs| ==> xs[i] <= 0)
  }

  lemma SameSign(xs: seq<int>, ys: seq<int>)
    requires multiset(xs) == multiset(ys) && OneSign(xs)
    ensures OneSign(ys)
  {
    forall i | 0 <= i < |ys| ensures ys[i] in xs {
      assert ys[i] in multiset(ys);
    }
  }

  /** The order of the reservations is irrelevant exactly when their slack does not mix signs. */
  lemma OrderMattersExactly(xs: seq<int>)
    ensures OrderDoesNotMatter(xs) <==> OneSign(xs)
  {
    if OneSign(xs) {
      forall ys: seq<int> | multiset(ys) == multiset(xs) ensures Clamped(ys) == Clamped(xs) {
        SameSign(xs, ys);
        UnusedIgnoresOrder(xs, ys);
        ClampedVersusUnused(xs);
        ClampedVersusUnused(ys);
      }
    } else {
      MixedSignsDependOnOrder(xs);
    }
  }

  /** The elements on one side of zero, and then the others. */
  function NonPositiveFirst(xs: seq<int>): seq<int> {
    if xs == [] then []
    else
      var rest := NonPositiveFirst(xs[..|xs| - 1]);
      if xs[|xs| - 1] <= 0 then [xs[|xs| - 1]] + rest else rest + [xs[|xs| - 1]]
  }

  lemma {:induction false} NonPositiveFirstLosesNothing(xs: seq<int>)
    ensures NothingLost(NonPositiveFirst(xs)) && multiset(NonPositiveFirst(xs)) == multiset(xs)
  {
    if xs != [] {
      var front, x := xs[..|xs| - 1], xs[|xs| - 1];
      NonPositiveFirstLosesNothing(front);
      assert xs == front + [x];
    }
  }

  lemma MixedSignsDependOnOrder(xs: seq<int>)
    requires !OneSign(xs)
    ensures !OrderDoesNotMatter(xs)
  {
    var i :| 0 <= i < |xs| && xs[i] > 0;
    var j :| 0 <= j < |xs| && xs[j] < 0;
    var good := NonPositiveFirst(xs);
    NonPositiveFirstLosesNothing(xs);
    ClampedVersusUnused(good);
    UnusedIgnoresOrder(good, xs);
    var bad := WithFirst(xs, i, j);
    ClampedVersusUnused(bad);
    UnusedIgnoresOrder(bad, xs);
  }

  /** A rearrangement that puts a positive entry before a negative one. */
  lemma WithFirst(xs: seq<int>, i: nat, j: nat) returns (ys: seq<int>)
    requires i < |xs| && j < |xs| && xs[i] > 0 && xs[j] < 0
    ensures multiset(ys) == multiset(xs) && !NothingLost(ys)
  {
    if i < j {
      ys := xs;
    } else {
      ys := xs[i := xs[j]][j := xs[i]];
      assert ys[j] > 0 && ys[i] < 0;
    }
  }
}
