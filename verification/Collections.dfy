/** Facts about the built-in collections that several modules share: members of
    nonempty sets, and the subsequences that filters pick. */
module Collections {
  lemma EmptyOrHasMember<T>(s: set<T>)
    ensures s == {} || exists x :: x in s
  {
    if forall x :: x !in s {
      assert s == {};
    }
  }

  lemma SomeMember<T>(s: set<T>) returns (x: T)
    requires s != {}
    ensures x in s
  {
    EmptyOrHasMember(s);
    x :| x in s;
  }

  // ----- picked subsequences -----

  ghost predicate Increasing(at: seq<nat>) {
    forall j, k :: 0 <= j < k < |at| ==> at[j] < at[k]
  }

  lemma IncreasingSnoc(at: seq<nat>, n: nat)
    requires Increasing(at) && forall i: nat :: i in at ==> i < n
    ensures Increasing(at + [n])
    ensures forall i: nat :: i in at + [n] <==> i in at || i == n
  {
    assert forall k :: 0 <= k < |at| ==> at[k] in at;
  }

  /** ys is what xs holds at these positions, each once and in order. */
  ghost predicate Picked<T(!new)>(xs: seq<T>, at: seq<nat>, ys: seq<T>) {
    && Increasing(at) && |at| == |ys|
    && forall k :: 0 <= k < |at| ==> at[k] < |xs| && xs[at[k]] == ys[k]
  }

  ghost predicate Ordered(at: seq<nat>, less: (nat, nat) -> bool) {
    forall j, k :: 0 <= j < k < |at| ==> less(at[j], at[k])
  }

  /** In a given order there is only one list of the same members. */
  lemma {:induction false} OneOrder(a: seq<nat>, b: seq<nat>, less: (nat, nat) -> bool)
    requires forall i, j :: less(i, j) ==> !less(j, i)
    requires Ordered(a, less) && Ordered(b, less) && forall i: nat :: i in a <==> i in b
    ensures a == b
    decreases |a|
  {
    if b != [] {
      assert b[0] in a;
    }
    if a != [] {
      assert a[0] in b;
      LastOnly(a, less);
      LastOnly(b, less);
      assert a[|a| - 1] in b && b[|b| - 1] in a;
      var front, back := a[..|a| - 1], b[..|b| - 1];
      forall i: nat
        ensures i in front <==> i in back
      {
        assert i in front <==> i in a && i != a[|a| - 1];
        assert i in back <==> i in b && i != b[|b| - 1];
      }
      OneOrder(front, back, less);
    }
  }

  lemma LastOnly(a: seq<nat>, less: (nat, nat) -> bool)
    requires forall i, j :: less(i, j) ==> !less(j, i)
    requires Ordered(a, less) && a != []
    ensures a[|a| - 1] in a && forall i: nat :: i in a && i != a[|a| - 1] ==> less(i, a[|a| - 1])
    ensures forall i: nat :: i in a[..|a| - 1] <==> i in a && i != a[|a| - 1]
  {
    var last := a[|a| - 1];
    assert a == a[..|a| - 1] + [last];
    forall k | 0 <= k < |a| - 1
      ensures a[k] != last
    {
      assert less(a[k], last);
    }
  }

  lemma PickedSnoc<T(!new)>(xs: seq<T>, at: seq<nat>, ys: seq<T>, x: T)
    requires Picked(xs, at, ys)
    ensures Picked(xs + [x], at, ys)
    ensures Picked(xs + [x], at + [|xs|], ys + [x])
  {
  }

  ghost predicate PicksAll<T(!new)>(xs: seq<T>, at: seq<nat>, p: T -> bool) {
    forall i: nat :: i in at <==> i < |xs| && p(xs[i])
  }

  /** One more element: it is picked when it qualifies. */
  lemma PickNext<T(!new)>(xs: seq<T>, at: seq<nat>, ys: seq<T>, x: T, p: T -> bool) returns (to: seq<nat>)
    requires Picked(xs, at, ys) && PicksAll(xs, at, p)
    ensures Picked(xs + [x], to, ys + if p(x) then [x] else []) && PicksAll(xs + [x], to, p)
  {
    to := if p(x) then at + [|xs|] else at;
    PickedSnoc(xs, at, ys, x);
    assert ys + [] == ys;
    hide Picked;
    forall i: nat
      ensures i in to <==> i < |xs + [x]| && p((xs + [x])[i])
    {
      assert i in to <==> i in at || (p(x) && i == |xs|);
    }
  }

  function Shifted(at: seq<nat>): (r: seq<nat>)
    ensures |r| == |at| && forall k :: 0 <= k < |at| ==> r[k] == at[k] + 1
  {
    seq(|at|, k requires 0 <= k < |at| => at[k] + 1)
  }

  lemma ShiftedMember(at: seq<nat>, i: nat)
    ensures i in Shifted(at) <==> i > 0 && i - 1 in at
  {
    if i > 0 && i - 1 in at {
      var k :| 0 <= k < |at| && at[k] == i - 1;
      assert Shifted(at)[k] == i;
    }
  }

  lemma PickedCons<T(!new)>(x: T, xs: seq<T>, at: seq<nat>, ys: seq<T>)
    requires Picked(xs, at, ys)
    ensures Picked([x] + xs, Shifted(at), ys)
    ensures Picked([x] + xs, [0] + Shifted(at), [x] + ys)
    ensures forall i: nat :: i in Shifted(at) <==> i > 0 && i - 1 in at
  {
    forall i: nat
      ensures i in Shifted(at) <==> i > 0 && i - 1 in at
    {
      ShiftedMember(at, i);
    }
  }

  /** Picking from what was picked. */
  lemma PickedTwice<T(!new)>(xs: seq<T>, at: seq<nat>, ys: seq<T>, from: seq<nat>, zs: seq<T>) returns (to: seq<nat>)
    requires Picked(xs, at, ys) && Picked(ys, from, zs)
    ensures Picked(xs, to, zs) && |to| == |from|
    ensures forall k :: 0 <= k < |from| ==> to[k] == at[from[k]]
    ensures forall i :: i in to <==> exists k :: k in from && k < |at| && at[k] == i
  {
    to := seq(|from|, k requires 0 <= k < |from| => at[from[k]]);
    forall i
      ensures i in to <==> exists k :: k in from && k < |at| && at[k] == i
    {
      if i in to {
        var k :| 0 <= k < |to| && to[k] == i;
        assert from[k] in from;
      }
      if k :| k in from && k < |at| && at[k] == i {
        var j :| 0 <= j < |from| && from[j] == k;
        assert to[j] == i;
      }
    }
  }
}
