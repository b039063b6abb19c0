/** The on-screen order of a storyboard: combining scenes into one chain entry
    and taking a chain apart again. A chain stands for its members, so the
    storyboard a teacher means is the order with every chain expanded. */
module StoryboardOrder {
  type Id = string

  /** Who is combined into each chain entry, in screen order. */
  type Members = map<Id, seq<Id>>

  ghost predicate NoDup(xs: seq<Id>) {
    forall x :: multiset(xs)[x] <= 1
  }

  lemma Distinct(xs: seq<Id>, i: nat)
    requires NoDup(xs) && i < |xs|
    ensures xs[i] !in xs[..i] && xs[i] !in xs[i + 1..]
  {
    var x := xs[i];
    assert xs == xs[..i] + [x] + xs[i + 1..];
    assert multiset(xs)[x] == multiset(xs[..i])[x] + 1 + multiset(xs[i + 1..])[x];
  }

  function IdSet(ids: seq<Id>): set<Id> {
    set x | x in ids
  }

  // ----- list operations -----

  /** The members of xs that are in ids, or those that are not, in order. */
  function Filter(xs: seq<Id>, ids: set<Id>, keep: bool): (r: seq<Id>)
    ensures |r| <= |xs|
  {
    if xs == [] then []
    else if (xs[0] in ids) == keep then [xs[0]] + Filter(xs[1..], ids, keep)
    else Filter(xs[1..], ids, keep)
  }

  function IndexOf(xs: seq<Id>, x: Id): (i: nat)
    requires x in xs
    ensures i < |xs| && xs[i] == x && x !in xs[..i]
  {
    if xs[0] == x then 0
    else
      var i := IndexOf(xs[1..], x);
      assert xs[..i + 1] == [xs[0]] + xs[1..][..i];
      i + 1
  }

  lemma {:induction false} IndexOfAt(xs: seq<Id>, i: nat)
    requires i < |xs| && xs[i] !in xs[..i]
    ensures IndexOf(xs, xs[i]) == i
  {
    if i > 0 {
      assert xs[..i][0] == xs[0] && xs[..i] == [xs[0]] + xs[1..][..i - 1];
      IndexOfAt(xs[1..], i - 1);
    }
  }

  function InsertAt(xs: seq<Id>, i: nat, x: Id): seq<Id>
    requires i <= |xs|
  {
    xs[..i] + [x] + xs[i..]
  }

  function RemoveFirst(xs: seq<Id>, x: Id): seq<Id>
    requires x in xs
  {
    xs[..IndexOf(xs, x)] + xs[IndexOf(xs, x) + 1..]
  }

  lemma FilterCons(x: Id, rest: seq<Id>, ids: set<Id>, keep: bool)
    ensures Filter([x] + rest, ids, keep) == (if (x in ids) == keep then [x] else []) + Filter(rest, ids, keep)
  {
    assert ([x] + rest)[1..] == rest;
  }

  lemma {:induction false} FilterConcat(xs: seq<Id>, ys: seq<Id>, ids: set<Id>, keep: bool)
    ensures Filter(xs + ys, ids, keep) == Filter(xs, ids, keep) + Filter(ys, ids, keep)
  {
    if xs == [] {
      assert xs + ys == ys;
    } else {
      hide Filter;
      var x, rest := xs[0], xs[1..];
      assert xs == [x] + rest && xs + ys == [x] + (rest + ys);
      FilterCons(x, rest, ids, keep);
      FilterCons(x, rest + ys, ids, keep);
      FilterConcat(rest, ys, ids, keep);
    }
  }

  /** How often an id is filtered through: as often as it is there, or never. */
  lemma {:induction false} FilterCounts(xs: seq<Id>, ids: set<Id>, keep: bool, x: Id)
    ensures multiset(Filter(xs, ids, keep))[x] == if (x in ids) == keep then multiset(xs)[x] else 0
  {
    if xs != [] {
      assert xs == [xs[0]] + xs[1..];
      FilterCounts(xs[1..], ids, keep, x);
    }
  }

  lemma {:induction false} FilterAll(xs: seq<Id>, ids: set<Id>, keep: bool)
    requires forall x :: x in xs ==> (x in ids) == keep
    ensures Filter(xs, ids, keep) == xs && Filter(xs, ids, !keep) == []
  {
    if xs != [] {
      assert xs[0] in xs && forall x :: x in xs[1..] ==> x in xs;
      FilterAll(xs[1..], ids, keep);
    }
  }

  lemma {:induction false} FilterTwice(xs: seq<Id>, a: set<Id>, b: set<Id>)
    ensures Filter(Filter(xs, a, false), b, false) == Filter(xs, a + b, false)
  {
    if xs != [] {
      FilterTwice(xs[1..], a, b);
      var head := if xs[0] in a then [] else [xs[0]];
      FilterConcat(head, Filter(xs[1..], a, false), b, false);
    }
  }

  lemma RemoveBehind(xs: seq<Id>, x: Id)
    requires x in xs && xs[0] != x
    ensures x in xs[1..] && RemoveFirst(xs, x) == [xs[0]] + RemoveFirst(xs[1..], x)
  {
    var rest := xs[1..];
    var i := IndexOf(rest, x);
    assert xs[..i + 1] == [xs[0]] + rest[..i] && xs[i + 2..] == rest[i + 1..];
  }

  lemma {:induction false} RemoveIsFilter(xs: seq<Id>, x: Id)
    requires multiset(xs)[x] == 1
    ensures x in xs && RemoveFirst(xs, x) == Filter(xs, {x}, false)
  {
    hide RemoveFirst, IndexOf;
    assert xs == [xs[0]] + xs[1..];
    if xs[0] == x {
      RemoveHead(xs);
    } else {
      RemoveBehind(xs, x);
      RemoveIsFilter(xs[1..], x);
    }
  }

  lemma RemoveHead(xs: seq<Id>)
    requires xs != [] && xs[0] !in xs[1..]
    ensures RemoveFirst(xs, xs[0]) == Filter(xs, {xs[0]}, false)
  {
    FilterAll(xs[1..], {xs[0]}, false);
  }

  // ----- gathering -----

  /** All members moved, in order, to where the first of them stood. */
  function Gather(xs: seq<Id>, ids: set<Id>): seq<Id> {
    if xs == [] then []
    else if xs[0] in ids then Filter(xs, ids, true) + Filter(xs, ids, false)
    else [xs[0]] + Gather(xs[1..], ids)
  }

  /** All members replaced by one new entry where the first of them stood. */
  function Chained(xs: seq<Id>, ids: set<Id>, chain: Id): seq<Id> {
    if xs == [] then []
    else if xs[0] in ids then [chain] + Filter(xs, ids, false)
    else [xs[0]] + Chained(xs[1..], ids, chain)
  }

  function Unchained(xs: seq<Id>, chain: Id, inner: seq<Id>): seq<Id>
    requires chain in xs
  {
    xs[..IndexOf(xs, chain)] + inner + xs[IndexOf(xs, chain) + 1..]
  }

  lemma FilterMembers(xs: seq<Id>, ids: set<Id>, keep: bool)
    ensures forall x :: x in Filter(xs, ids, keep) <==> x in xs && (x in ids) == keep
  {
  }

  /** The members and the others together are the whole list. */
  lemma FilterSplits(xs: seq<Id>, ids: set<Id>)
    ensures multiset(Filter(xs, ids, true)) + multiset(Filter(xs, ids, false)) == multiset(xs)
  {
    forall x
      ensures multiset(Filter(xs, ids, true))[x] + multiset(Filter(xs, ids, false))[x] == multiset(xs)[x]
    {
      FilterCounts(xs, ids, true, x);
      FilterCounts(xs, ids, false, x);
    }
  }

  lemma MembersThenOthers(xs: seq<Id>, ids: set<Id>, keep: bool)
    ensures Filter(Filter(xs, ids, true) + Filter(xs, ids, false), ids, keep) == Filter(xs, ids, keep)
  {
    var ours, others := Filter(xs, ids, true), Filter(xs, ids, false);
    FilterMembers(xs, ids, true);
    FilterMembers(xs, ids, false);
    FilterConcat(ours, others, ids, keep);
    FilterAll(ours, ids, true);
    FilterAll(others, ids, false);
  }

  /** Gathering is stable: neither the members nor the others change their own
      order, nothing is lost and nothing is added. */
  lemma {:induction false} GatherIsStable(xs: seq<Id>, ids: set<Id>, keep: bool)
    ensures Filter(Gather(xs, ids), ids, keep) == Filter(xs, ids, keep)
    ensures multiset(Gather(xs, ids)) == multiset(xs)
  {
    hide Filter;
    if xs == [] {
    } else if xs[0] in ids {
      FilterSplits(xs, ids);
      MembersThenOthers(xs, ids, keep);
    } else {
      assert xs == [xs[0]] + xs[1..];
      GatherIsStable(xs[1..], ids, keep);
      FilterConcat([xs[0]], Gather(xs[1..], ids), ids, keep);
      FilterConcat([xs[0]], xs[1..], ids, keep);
    }
  }

  lemma {:induction false} GatherPrefix(xs: seq<Id>, ys: seq<Id>, ids: set<Id>)
    requires forall x :: x in xs ==> x !in ids
    ensures Gather(xs + ys, ids) == xs + Gather(ys, ids)
  {
    if xs == [] {
      assert xs + ys == ys;
    } else {
      assert xs[0] in xs && forall x :: x in xs[1..] ==> x in xs;
      assert (xs + ys)[1..] == xs[1..] + ys;
      GatherPrefix(xs[1..], ys, ids);
    }
  }

  /** Where the members end up: together, after what preceded the first of them. */
  lemma GatherShape(xs: seq<Id>, ids: set<Id>, e: nat)
    requires e < |xs| && xs[e] in ids && forall k :: 0 <= k < e ==> xs[k] !in ids
    ensures Gather(xs, ids) == xs[..e] + Filter(xs, ids, true) + Filter(xs[e..], ids, false)
  {
    hide Filter;
    var before, rest := xs[..e], xs[e..];
    assert xs == before + rest;
    GatherPrefix(before, rest, ids);
    FilterConcat(before, rest, ids, true);
    FilterAll(before, ids, false);
  }

  lemma {:induction false} ChainedShape(xs: seq<Id>, ids: set<Id>, chain: Id, e: nat)
    requires e < |xs| && xs[e] in ids && forall k :: 0 <= k < e ==> xs[k] !in ids
    ensures Chained(xs, ids, chain) == xs[..e] + [chain] + Filter(xs[e..], ids, false)
  {
    if e > 0 {
      ChainedShape(xs[1..], ids, chain, e - 1);
      assert xs[1..][e - 1..] == xs[e..];
      assert xs[..e] == [xs[0]] + xs[1..][..e - 1];
    } else {
      assert xs[e..] == xs;
    }
  }

  /** Combining scenes and taking the chain apart again gathers them in place. */
  lemma ChainThenUngroup(xs: seq<Id>, ids: set<Id>, chain: Id, e: nat)
    requires e < |xs| && xs[e] in ids && forall k :: 0 <= k < e ==> xs[k] !in ids
    requires chain !in xs
    ensures
      var combined := Chained(xs, ids, chain);
      chain in combined && Unchained(combined, chain, Filter(xs, ids, true)) == Gather(xs, ids)
  {
    var combined := Chained(xs, ids, chain);
    var rest := Filter(xs[e..], ids, false);
    ChainedShape(xs, ids, chain, e);
    GatherShape(xs, ids, e);
    assert combined[e] == chain && combined[..e] == xs[..e];
    IndexOfAt(combined, e);
    assert combined[..e] == xs[..e] && combined[e + 1..] == rest;
  }

  // ----- the list updates step by step -----

  /** The least position of a member. */
  method EarliestIndex(order: seq<Id>, ids: seq<Id>) returns (e: nat)
    requires ids != [] && forall x :: x in ids ==> x in order
    ensures e < |order| && order[e] in ids && forall k :: 0 <= k < e ==> order[k] !in ids
  {
    assert ids[0] in ids;
    e := IndexOf(order, ids[0]);
    for i := 1 to |ids|
      invariant e < |order| && order[e] in ids
      invariant forall k, x :: 0 <= k < e && x in ids[..i] ==> order[k] != x
    {
      var here := IndexOf(order, ids[i]);
      assert ids[..i + 1] == ids[..i] + [ids[i]];
      assert forall k :: 0 <= k < here ==> order[..here][k] == order[k] && order[k] in order[..here];
      if here < e {
        e := here;
      }
    }
    assert ids[..|ids|] == ids;
  }

  method RemoveEach(order: seq<Id>, ids: seq<Id>) returns (rest: seq<Id>)
    requires NoDup(order) && NoDup(ids) && forall x :: x in ids ==> x in order
    ensures rest == Filter(order, IdSet(ids), false)
  {
    rest := order;
    FilterAll(order, {}, false);
    assert IdSet(ids[..0]) == {};
    for i := 0 to |ids|
      invariant rest == Filter(order, IdSet(ids[..i]), false)
    {
      ghost var done := IdSet(ids[..i]);
      ghost var more := IdSet(ids[..i + 1]);
      assert ids[..i + 1] == ids[..i] + [ids[i]];
      assert more == done + {ids[i]};
      assert ids[i] !in done by {
        Distinct(ids, i);
      }
      StillThere(order, done, ids[i]);
      RemoveIsFilter(rest, ids[i]);
      FilterTwice(order, done, {ids[i]});
      rest := RemoveFirst(rest, ids[i]);
    }
    assert ids[..|ids|] == ids;
  }

  lemma StillThere(order: seq<Id>, done: set<Id>, x: Id)
    requires NoDup(order) && x in order && x !in done
    ensures x in Filter(order, done, false) && NoDup(Filter(order, done, false))
  {
    FilterCounts(order, done, false, x);
    forall y
      ensures multiset(Filter(order, done, false))[y] <= 1
    {
      FilterCounts(order, done, false, y);
    }
  }

  method ChainOrder(order: seq<Id>, ids: seq<Id>, chain: Id) returns (combined: seq<Id>)
    requires NoDup(order) && NoDup(ids) && ids != [] && forall x :: x in ids ==> x in order
    ensures combined == Chained(order, IdSet(ids), chain)
  {
    ghost var chosen := IdSet(ids);
    var e := EarliestIndex(order, ids);
    var rest := RemoveEach(order, ids);
    assert order == order[..e] + order[e..];
    FilterConcat(order[..e], order[e..], chosen, false);
    FilterAll(order[..e], chosen, false);
    ChainedShape(order, chosen, chain, e);
    combined := InsertAt(rest, e, chain);
  }

  method UngroupOrder(order: seq<Id>, chain: Id, inner: seq<Id>) returns (spliced: seq<Id>)
    requires chain in order
    ensures spliced == Unchained(order, chain, inner)
  {
    var index := IndexOf(order, chain);
    spliced := order[..index] + order[index + 1..];
    for offset := 0 to |inner|
      invariant spliced == order[..index] + inner[..offset] + order[index + 1..]
    {
      spliced := InsertAt(spliced, index + offset, inner[offset]);
      assert inner[..offset + 1] == inner[..offset] + [inner[offset]];
    }
    assert inner[..|inner|] == inner;
  }

  // ----- the expanded storyboard -----

  function Entry(id: Id, members: Members): seq<Id> {
    if id in members then members[id] else [id]
  }

  function Expand(order: seq<Id>, members: Members): seq<Id> {
    if order == [] then [] else Entry(order[0], members) + Expand(order[1..], members)
  }

  /** Every chain is on the order and stands for at least one scene, none of its
      members is itself a chain, and no scene appears twice once expanded. */
  ghost predicate WellOrdered(order: seq<Id>, members: Members) {
    && NoDup(Expand(order, members))
    && (forall c :: c in members ==> c in order && members[c] != [])
    && forall c, x :: c in members && x in members[c] ==> x !in members
  }

  lemma {:induction false} ExpandConcat(xs: seq<Id>, ys: seq<Id>, members: Members)
    ensures Expand(xs + ys, members) == Expand(xs, members) + Expand(ys, members)
  {
    if xs == [] {
      assert xs + ys == ys;
    } else {
      assert (xs + ys)[1..] == xs[1..] + ys;
      ExpandConcat(xs[1..], ys, members);
    }
  }

  lemma {:induction false} ExpandAgrees(order: seq<Id>, a: Members, b: Members)
    requires forall x :: x in order ==> Entry(x, a) == Entry(x, b)
    ensures Expand(order, a) == Expand(order, b)
  {
    if order != [] {
      assert order[0] in order && forall x :: x in order[1..] ==> x in order;
      ExpandAgrees(order[1..], a, b);
    }
  }

  lemma ExpandAt(order: seq<Id>, members: Members, i: nat)
    requires i < |order|
    ensures Expand(order, members)
         == Expand(order[..i], members) + Entry(order[i], members) + Expand(order[i + 1..], members)
  {
    assert order == order[..i] + ([order[i]] + order[i + 1..]);
    ExpandConcat(order[..i], [order[i]] + order[i + 1..], members);
  }

  lemma {:induction false} InEntryInExpand(order: seq<Id>, members: Members, c: Id, x: Id)
    requires c in order && x in Entry(c, members)
    ensures x in Expand(order, members)
  {
    if c != order[0] {
      InEntryInExpand(order[1..], members, c, x);
    }
  }

  /** Two entries of a well-formed order stand for different scenes. */
  lemma EntriesDisjoint(order: seq<Id>, members: Members, i: nat, j: nat, x: Id)
    requires NoDup(Expand(order, members)) && i < j < |order|
    requires x in Entry(order[i], members)
    ensures x !in Entry(order[j], members)
  {
    ExpandAt(order, members, i);
    assert x !in Expand(order[i + 1..], members) by {
      assert multiset(Expand(order, members))[x] >=
             multiset(Entry(order[i], members))[x] + multiset(Expand(order[i + 1..], members))[x];
    }
    assert order[i + 1..][j - i - 1] == order[j];
    if x in Entry(order[j], members) {
      InEntryInExpand(order[i + 1..], members, order[j], x);
    }
  }

  lemma TwoPlaces(xs: seq<Id>, x: Id) returns (i: nat, j: nat)
    requires multiset(xs)[x] > 1
    ensures i < j < |xs| && xs[i] == x && xs[j] == x
  {
    i := IndexOf(xs, x);
    var after := xs[i + 1..];
    assert xs == xs[..i] + [x] + after;
    assert multiset(xs)[x] == multiset(xs[..i])[x] + 1 + multiset(after)[x];
    assert x in after;
    j := IndexOf(after, x) + i + 1;
  }

  /** The order itself has no duplicates. */
  lemma OrderNoDup(order: seq<Id>, members: Members)
    requires WellOrdered(order, members)
    ensures NoDup(order)
  {
    hide Expand;
    forall x
      ensures multiset(order)[x] <= 1
    {
      if multiset(order)[x] > 1 {
        var i, j := TwoPlaces(order, x);
        EntriesDisjoint(order, members, i, j, Entry(x, members)[0]);
      }
    }
  }

  /** Chain members are off the order, and no scene belongs to two chains. */
  lemma MembersOffOrder(order: seq<Id>, members: Members, c: Id, x: Id)
    requires WellOrdered(order, members) && c in members && x in members[c]
    ensures x !in order
    ensures forall d :: d in members && d != c ==> x !in members[d]
  {
    var i := IndexOf(order, c);
    if x in order {
      var j := IndexOf(order, x);
      assert Entry(x, members) == [x] && i != j;
      if i < j {
        EntriesDisjoint(order, members, i, j, x);
      } else {
        EntriesDisjoint(order, members, j, i, x);
      }
    }
    forall d | d in members && d != c
      ensures x !in members[d]
    {
      var j := IndexOf(order, d);
      if x in members[d] {
        if i < j {
          EntriesDisjoint(order, members, i, j, x);
        } else {
          EntriesDisjoint(order, members, j, i, x);
        }
      }
    }
  }

  // ----- what chain and ungroup do to the expanded storyboard -----

  lemma {:induction false} FilterExpand(order: seq<Id>, members: Members, ids: set<Id>)
    requires ids !! members.Keys
    requires forall c, x :: c in members && x in members[c] ==> x !in ids
    ensures Expand(Filter(order, ids, false), members) == Filter(Expand(order, members), ids, false)
    ensures Filter(order, ids, true) == Filter(Expand(order, members), ids, true)
  {
    if order != [] {
      var entry, rest := Entry(order[0], members), Expand(order[1..], members);
      FilterExpand(order[1..], members, ids);
      FilterConcat(entry, rest, ids, false);
      FilterConcat(entry, rest, ids, true);
      FilterAll(entry, ids, order[0] in ids);
      var head := if order[0] in ids then [] else [order[0]];
      ExpandConcat(head, Filter(order[1..], ids, false), members);
    }
  }

  /** Combining scenes gathers them on the expanded storyboard, nothing else. */
  lemma {:induction false} ChainGathers(order: seq<Id>, members: Members, now: Members, ids: set<Id>, chain: Id)
    requires ids !! members.Keys && chain !in order
    requires forall c, x :: c in members && x in members[c] ==> x !in ids
    requires exists x :: x in order && x in ids
    requires now == members[chain := Filter(order, ids, true)]
    ensures Expand(Chained(order, ids, chain), now) == Gather(Expand(order, members), ids)
    decreases |order|, 1
  {
    if order[0] in ids {
      var rest := Filter(order, ids, false);
      FilterExpand(order, members, ids);
      FilterMembers(order, ids, false);
      ExpandAgrees(rest, now, members);
      ExpandConcat([chain], rest, now);
      assert Entry(chain, now) == Filter(order, ids, true);
      assert Expand(order, members)[0] == order[0];
    } else {
      var x :| x in order && x in ids;
      assert x in order[1..];
      ChainGathersRest(order, members, now, ids, chain);
      var entry := Entry(order[0], members);
      GatherPrefix(entry, Expand(order[1..], members), ids);
      ExpandConcat([order[0]], Chained(order[1..], ids, chain), now);
      assert Entry(order[0], now) == entry;
    }
  }

  /** The same, past a first entry that is not a member. */
  lemma {:induction false} ChainGathersRest(order: seq<Id>, members: Members, now: Members, ids: set<Id>, chain: Id)
    requires ids !! members.Keys && chain !in order && order != [] && order[0] !in ids
    requires forall c, x :: c in members && x in members[c] ==> x !in ids
    requires exists x :: x in order[1..] && x in ids
    requires now == members[chain := Filter(order, ids, true)]
    ensures Expand(Chained(order[1..], ids, chain), now) == Gather(Expand(order[1..], members), ids)
    decreases |order|, 0
  {
    assert Filter(order, ids, true) == Filter(order[1..], ids, true);
    ChainGathers(order[1..], members, now, ids, chain);
  }

  /** Combining keeps the order well formed and permutes the expansion. */
  lemma ChainKeepsOrder(order: seq<Id>, members: Members, now: Members, ids: set<Id>, chain: Id)
    requires WellOrdered(order, members)
    requires ids != {} && ids !! members.Keys && forall x :: x in ids ==> x in order
    requires chain !in order && chain !in members && chain !in Expand(order, members)
    requires now == members[chain := Filter(order, ids, true)]
    ensures WellOrdered(Chained(order, ids, chain), now)
    ensures Expand(Chained(order, ids, chain), now) == Gather(Expand(order, members), ids)
  {
    hide Expand, Gather, Chained, Filter;
    var combined := Chained(order, ids, chain);
    forall c, x | c in members && x in members[c]
      ensures x !in ids
    {
      MembersOffOrder(order, members, c, x);
    }
    var some :| some in ids;
    assert some in order;
    ChainGathers(order, members, now, ids, chain);
    GatherIsStable(Expand(order, members), ids, true);
    ChainedMembership(order, ids, chain, some);
    FilterCounts(order, ids, true, some);
    forall c | c in now
      ensures c in combined && now[c] != []
    {
    }
    forall c, x | c in now && x in now[c]
      ensures x !in now
    {
      FilterCounts(order, ids, true, x);
      if c in members && c != chain {
        InEntryInExpand(order, members, c, x);
      }
    }
  }

  lemma {:induction false} ChainedMembership(order: seq<Id>, ids: set<Id>, chain: Id, some: Id)
    requires some in order && some in ids
    ensures chain in Chained(order, ids, chain)
    ensures forall x :: x in order && x !in ids ==> x in Chained(order, ids, chain)
    ensures forall x :: x in Chained(order, ids, chain) ==> x == chain || (x in order && x !in ids)
  {
    if order[0] in ids {
      FilterMembers(order, ids, false);
    } else {
      ChainedMembership(order[1..], ids, chain, some);
    }
  }

  /** Taking a chain apart leaves the expansion exactly as it was. */
  lemma UngroupKeepsExpansion(order: seq<Id>, members: Members, now: Members, chain: Id)
    requires WellOrdered(order, members) && chain in members
    requires now == members - {chain}
    ensures Expand(Unchained(order, chain, members[chain]), now) == Expand(order, members)
  {
    hide Expand;
    var i := IndexOf(order, chain);
    var before, inner, after := order[..i], members[chain], order[i + 1..];
    ExpandAt(order, members, i);
    OrderNoDup(order, members);
    Distinct(order, i);
    hide WellOrdered;
    ExpandAgrees(before, members, now);
    ExpandAgrees(after, members, now);
    ExpandPlain(inner, now);
    assert Unchained(order, chain, inner) == before + (inner + after);
    ExpandConcat(before, inner + after, now);
    ExpandConcat(inner, after, now);
  }

  lemma UngroupKeepsOrder(order: seq<Id>, members: Members, now: Members, chain: Id)
    requires WellOrdered(order, members) && chain in members
    requires now == members - {chain}
    ensures WellOrdered(Unchained(order, chain, members[chain]), now)
  {
    hide Expand;
    var i := IndexOf(order, chain);
    var spliced := Unchained(order, chain, members[chain]);
    UngroupKeepsExpansion(order, members, now, chain);
    assert order == order[..i] + [chain] + order[i + 1..];
    forall c | c in now
      ensures c in spliced && now[c] != []
    {
      assert c in order;
    }
    forall c, x | c in now && x in now[c]
      ensures x !in now
    {
      assert c in members && x in members[c];
    }
  }

  lemma {:induction false} ExpandPlain(xs: seq<Id>, members: Members)
    requires forall x :: x in xs ==> x !in members
    ensures Expand(xs, members) == xs
  {
    if xs != [] {
      assert xs[0] in xs && forall x :: x in xs[1..] ==> x in xs;
      ExpandPlain(xs[1..], members);
    }
  }

  /** What a sort by position on the order returns: the chosen ids, each once, in
      the order they stand on screen. */
  lemma ScreenOrderIsSorted(order: seq<Id>, ids: seq<Id>, i: nat, j: nat)
    requires NoDup(order) && NoDup(ids) && forall x :: x in ids ==> x in order
    ensures
      var screen := Filter(order, IdSet(ids), true);
      && multiset(screen) == multiset(ids)
      && (i < j < |screen| ==> screen[i] in order && screen[j] in order
                               && IndexOf(order, screen[i]) < IndexOf(order, screen[j]))
  {
    var chosen := IdSet(ids);
    var screen := Filter(order, chosen, true);
    forall x
      ensures multiset(screen)[x] == multiset(ids)[x]
    {
      FilterCounts(order, chosen, true, x);
      assert multiset(ids)[x] <= 1 && multiset(order)[x] <= 1;
    }
    if i < j < |screen| {
      var a, b := FilterPositions(order, chosen, true, i, j);
      Distinct(order, a);
      Distinct(order, b);
      IndexOfAt(order, a);
      IndexOfAt(order, b);
    }
  }

  lemma {:induction false} FilterPositions(xs: seq<Id>, ids: set<Id>, keep: bool, i: nat, j: nat) returns (a: nat, b: nat)
    requires i < j < |Filter(xs, ids, keep)|
    ensures a < b < |xs| && Filter(xs, ids, keep)[i] == xs[a] && Filter(xs, ids, keep)[j] == xs[b]
  {
    if (xs[0] in ids) != keep {
      a, b := FilterPositions(xs[1..], ids, keep, i, j);
      a, b := a + 1, b + 1;
    } else if i > 0 {
      a, b := FilterPositions(xs[1..], ids, keep, i - 1, j - 1);
      a, b := a + 1, b + 1;
    } else {
      a := 0;
      b := FilterPosition(xs[1..], ids, keep, j - 1);
      b := b + 1;
    }
  }

  lemma {:induction false} FilterPosition(xs: seq<Id>, ids: set<Id>, keep: bool, j: nat) returns (b: nat)
    requires j < |Filter(xs, ids, keep)|
    ensures b < |xs| && Filter(xs, ids, keep)[j] == xs[b]
  {
    if (xs[0] in ids) != keep {
      b := FilterPosition(xs[1..], ids, keep, j);
      b := b + 1;
    } else if j > 0 {
      b := FilterPosition(xs[1..], ids, keep, j - 1);
      b := b + 1;
    } else {
      b := 0;
    }
  }
}
