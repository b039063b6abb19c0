/** The in-memory registries of rendered clips and thumbnails: insertion-ordered,
    with reservations, four eviction policies, and deletion of files nobody names
    any more. The disk is a map from path to file size. */
module SessionStore {
  import opened Collections
  import opened Outcomes

  type Id = string
  type Session = string
  type Path = string
  type Time = int

  datatype Item = Item(id: Id, path: Path, session: Option<Session>, size: nat, created: Time)

  type Registry = seq<Item>

  datatype Shelf = Shelf(clips: Registry, thumbnails: Registry)

  /** Whose entries an eviction may take. */
  datatype Scope = Everyone | Of(session: Session)

  predicate InScope(item: Item, scope: Scope) {
    match scope
    case Everyone => true
    case Of(s) => item.session == Some(s)
  }

  // ----- sizes, selections and order -----

  function Total(reg: Registry): nat {
    if reg == [] then 0 else reg[0].size + Total(reg[1..])
  }

  /** The entries inside the scope, or those outside it, in order. */
  function Select(reg: Registry, scope: Scope, inside: bool): Registry {
    if reg == [] then []
    else if InScope(reg[0], scope) == inside then [reg[0]] + Select(reg[1..], scope, inside)
    else Select(reg[1..], scope, inside)
  }

  function TotalIn(reg: Registry, scope: Scope): nat {
    Total(Select(reg, scope, true))
  }

  function ShelfTotal(shelf: Shelf, scope: Scope): nat {
    TotalIn(shelf.clips, scope) + TotalIn(shelf.thumbnails, scope)
  }

  ghost predicate Sorted(reg: Registry) {
    forall i, j :: 0 <= i < j < |reg| ==> reg[i].created <= reg[j].created
  }

  /** Both registries as one list by age; of two equally old entries the first
      registry's comes first. */
  function Merge(a: Registry, b: Registry): Registry {
    if a == [] then b
    else if b == [] then a
    else if a[0].created <= b[0].created then [a[0]] + Merge(a[1..], b)
    else [b[0]] + Merge(a, b[1..])
  }

  function Merged(shelf: Shelf, scope: Scope): Registry {
    Merge(Select(shelf.clips, scope, true), Select(shelf.thumbnails, scope, true))
  }

  lemma TotalOfNothing()
    ensures Total([]) == 0
  {
  }

  lemma {:induction false} TotalConcat(a: Registry, b: Registry)
    ensures Total(a + b) == Total(a) + Total(b)
  {
    if a == [] {
      assert a + b == b;
    } else {
      assert (a + b)[0] == a[0] && (a + b)[1..] == a[1..] + b;
      TotalConcat(a[1..], b);
    }
  }

  lemma {:induction false} MergeTotal(a: Registry, b: Registry)
    ensures Total(Merge(a, b)) == Total(a) + Total(b)
    ensures |Merge(a, b)| == |a| + |b|
  {
    if a != [] && b != [] {
      if a[0].created <= b[0].created {
        MergeTotal(a[1..], b);
      } else {
        MergeTotal(a, b[1..]);
      }
    }
  }

  lemma {:induction false} MergeConserves(a: Registry, b: Registry)
    ensures multiset(Merge(a, b)) == multiset(a) + multiset(b)
  {
    if a != [] && b != [] {
      if a[0].created <= b[0].created {
        MergeConserves(a[1..], b);
        assert a == [a[0]] + a[1..];
      } else {
        MergeConserves(a, b[1..]);
        assert b == [b[0]] + b[1..];
      }
    }
  }

  lemma SortedTail(reg: Registry)
    requires Sorted(reg) && reg != []
    ensures Sorted(reg[1..]) && forall x :: x in reg ==> reg[0].created <= x.created
    ensures forall x :: x in reg[1..] ==> x in reg
  {
  }

  /** Merging sorted registries is a sorted list of exactly their entries. */
  lemma {:induction false} MergeSorts(a: Registry, b: Registry)
    requires Sorted(a) && Sorted(b)
    ensures Sorted(Merge(a, b))
  {
    if a != [] && b != [] {
      SortedTail(a);
      SortedTail(b);
      if a[0].created <= b[0].created {
        hide Sorted;
        MergeSorts(a[1..], b);
        MergeConserves(a[1..], b);
        OldestFirst(a[0], Merge(a[1..], b), a[1..], b);
      } else {
        hide Sorted;
        MergeSorts(a, b[1..]);
        MergeConserves(a, b[1..]);
        OldestFirst(b[0], Merge(a, b[1..]), a, b[1..]);
      }
    }
  }

  lemma OldestFirst(first: Item, rest: Registry, a: Registry, b: Registry)
    requires Sorted(rest) && multiset(rest) == multiset(a) + multiset(b)
    requires forall x :: x in a || x in b ==> first.created <= x.created
    ensures Sorted([first] + rest)
  {
    forall j | 0 <= j < |rest|
      ensures first.created <= rest[j].created
    {
      assert rest[j] in multiset(rest);
    }
  }

  lemma SelectCons(x: Item, rest: Registry, scope: Scope, inside: bool)
    ensures Select([x] + rest, scope, inside)
         == (if InScope(x, scope) == inside then [x] else []) + Select(rest, scope, inside)
  {
    assert ([x] + rest)[1..] == rest;
  }

  lemma {:induction false} SelectConcat(a: Registry, b: Registry, scope: Scope, inside: bool)
    ensures Select(a + b, scope, inside) == Select(a, scope, inside) + Select(b, scope, inside)
  {
    if a == [] {
      assert a + b == b;
    } else {
      hide Select;
      var x, rest := a[0], a[1..];
      assert a == [x] + rest && a + b == [x] + (rest + b);
      SelectCons(x, rest, scope, inside);
      SelectCons(x, rest + b, scope, inside);
      SelectConcat(rest, b, scope, inside);
    }
  }

  lemma {:induction false} SelectNothing(reg: Registry, scope: Scope, inside: bool)
    requires forall x :: x in reg ==> InScope(x, scope) != inside
    ensures Select(reg, scope, inside) == []
  {
    if reg != [] {
      assert reg[0] in reg && forall x :: x in reg[1..] ==> x in reg;
      SelectNothing(reg[1..], scope, inside);
    }
  }

  // ----- removing one entry -----

  function RemoveAt(reg: Registry, i: nat): Registry
    requires i < |reg|
  {
    reg[..i] + reg[i + 1..]
  }

  lemma SelectRemoved(reg: Registry, i: nat, scope: Scope, inside: bool)
    requires i < |reg|
    ensures
      var before, after := Select(reg[..i], scope, inside), Select(reg[i + 1..], scope, inside);
      && Select(reg, scope, inside) == before + (if InScope(reg[i], scope) == inside then [reg[i]] else []) + after
      && Select(RemoveAt(reg, i), scope, inside) == before + after
  {
    hide Select;
    assert reg == reg[..i] + ([reg[i]] + reg[i + 1..]);
    SelectConcat(reg[..i], [reg[i]] + reg[i + 1..], scope, inside);
    SelectCons(reg[i], reg[i + 1..], scope, inside);
    SelectConcat(reg[..i], reg[i + 1..], scope, inside);
  }

  lemma TotalRemoved(reg: Registry, i: nat, scope: Scope)
    requires i < |reg|
    ensures TotalIn(reg, scope) == TotalIn(RemoveAt(reg, i), scope) + (if InScope(reg[i], scope) then reg[i].size else 0)
  {
    SelectRemoved(reg, i, scope, true);
    var before, after := Select(reg[..i], scope, true), Select(reg[i + 1..], scope, true);
    var here := if InScope(reg[i], scope) then [reg[i]] else [];
    TotalConcat(before + here, after);
    TotalConcat(before, here);
    TotalConcat(before, after);
    assert Total(here) == if InScope(reg[i], scope) then reg[i].size else 0;
  }

  lemma {:induction false} TotalSuffix(reg: Registry, k: nat, scope: Scope)
    requires k <= |reg|
    ensures TotalIn(reg[k..], scope) <= TotalIn(reg, scope)
  {
    if k > 0 {
      TotalSuffix(reg[1..], k - 1, scope);
      assert reg[1..][k - 1..] == reg[k..];
    }
  }

  // ----- evicting the oldest -----

  /** The position of the first entry in scope; the length when there is none. */
  function FirstIn(reg: Registry, scope: Scope): (i: nat)
    ensures i <= |reg| && (i < |reg| ==> InScope(reg[i], scope))
    ensures forall k :: 0 <= k < i ==> !InScope(reg[k], scope)
  {
    if reg == [] then 0 else if InScope(reg[0], scope) then 0 else FirstIn(reg[1..], scope) + 1
  }

  predicate TakesClip(shelf: Shelf, scope: Scope) {
    var i, j := FirstIn(shelf.clips, scope), FirstIn(shelf.thumbnails, scope);
    i < |shelf.clips| && (j == |shelf.thumbnails| || shelf.clips[i].created <= shelf.thumbnails[j].created)
  }

  predicate TakesThumbnail(shelf: Shelf, scope: Scope) {
    !TakesClip(shelf, scope) && FirstIn(shelf.thumbnails, scope) < |shelf.thumbnails|
  }

  datatype Eviction = Eviction(shelf: Shelf, gone: seq<Item>)

  /** Remove the oldest entries in scope until those left fit the cap. */
  function Evict(shelf: Shelf, scope: Scope, cap: nat): Eviction
    decreases |shelf.clips| + |shelf.thumbnails|
  {
    if ShelfTotal(shelf, scope) <= cap then Eviction(shelf, [])
    else if TakesClip(shelf, scope) then
      var i := FirstIn(shelf.clips, scope);
      var r := Evict(shelf.(clips := RemoveAt(shelf.clips, i)), scope, cap);
      r.(gone := [shelf.clips[i]] + r.gone)
    else if TakesThumbnail(shelf, scope) then
      var j := FirstIn(shelf.thumbnails, scope);
      var r := Evict(shelf.(thumbnails := RemoveAt(shelf.thumbnails, j)), scope, cap);
      r.(gone := [shelf.thumbnails[j]] + r.gone)
    else Eviction(shelf, [])
  }

  /** The oldest entry in scope, and the shelf without it. */
  function EvictedNext(shelf: Shelf, scope: Scope): Option<Item> {
    if TakesClip(shelf, scope) then Some(shelf.clips[FirstIn(shelf.clips, scope)])
    else if TakesThumbnail(shelf, scope) then Some(shelf.thumbnails[FirstIn(shelf.thumbnails, scope)])
    else None
  }

  function WithoutNext(shelf: Shelf, scope: Scope): Shelf {
    if TakesClip(shelf, scope) then shelf.(clips := RemoveAt(shelf.clips, FirstIn(shelf.clips, scope)))
    else if TakesThumbnail(shelf, scope) then
      shelf.(thumbnails := RemoveAt(shelf.thumbnails, FirstIn(shelf.thumbnails, scope)))
    else shelf
  }

  lemma EvictUnfolds(shelf: Shelf, scope: Scope, cap: nat)
    ensures
      var next, r := WithoutNext(shelf, scope), Evict(WithoutNext(shelf, scope), scope, cap);
      if ShelfTotal(shelf, scope) <= cap then Evict(shelf, scope, cap) == Eviction(shelf, [])
      else
        match EvictedNext(shelf, scope)
        case None => Evict(shelf, scope, cap) == Eviction(shelf, []) && next == shelf
        case Some(head) =>
          && Evict(shelf, scope, cap) == r.(gone := [head] + r.gone)
          && |next.clips| + |next.thumbnails| < |shelf.clips| + |shelf.thumbnails|
  {
    hide ShelfTotal;
  }

  lemma SelectFirst(reg: Registry, scope: Scope)
    ensures
      var i := FirstIn(reg, scope);
      if i == |reg| then Select(reg, scope, true) == []
      else
        && Select(reg, scope, true) == [reg[i]] + Select(RemoveAt(reg, i), scope, true)
        && Select(RemoveAt(reg, i), scope, false) == Select(reg, scope, false)
  {
    var i := FirstIn(reg, scope);
    SelectNothing(reg[..i], scope, true);
    if i == |reg| {
      assert reg[..i] == reg;
    } else {
      SelectRemoved(reg, i, scope, true);
      SelectRemoved(reg, i, scope, false);
    }
  }

  /** Each single eviction takes the head of the merged list. */
  lemma TakeHead(shelf: Shelf, scope: Scope)
    ensures TakesClip(shelf, scope) ==>
              var i := FirstIn(shelf.clips, scope);
              Merged(shelf, scope) == [shelf.clips[i]] + Merged(shelf.(clips := RemoveAt(shelf.clips, i)), scope)
    ensures TakesThumbnail(shelf, scope) ==>
              var j := FirstIn(shelf.thumbnails, scope);
              Merged(shelf, scope)
              == [shelf.thumbnails[j]] + Merged(shelf.(thumbnails := RemoveAt(shelf.thumbnails, j)), scope)
    ensures !TakesClip(shelf, scope) && !TakesThumbnail(shelf, scope) ==> Merged(shelf, scope) == []
  {
    hide Select, RemoveAt;
    SelectFirst(shelf.clips, scope);
    SelectFirst(shelf.thumbnails, scope);
  }

  ghost predicate SameOutside(a: Shelf, b: Shelf, scope: Scope) {
    && Select(a.clips, scope, false) == Select(b.clips, scope, false)
    && Select(a.thumbnails, scope, false) == Select(b.thumbnails, scope, false)
  }

  /** Eviction takes the shortest prefix of the merged list that brings the rest
      under the cap, and touches nothing outside its scope. */
  lemma {:induction false} EvictTakesOldestPrefix(shelf: Shelf, scope: Scope, cap: nat)
    ensures
      var m, r := Merged(shelf, scope), Evict(shelf, scope, cap);
      && |r.gone| <= |m| && r.gone == m[..|r.gone|] && Merged(r.shelf, scope) == m[|r.gone|..]
      && SameOutside(r.shelf, shelf, scope)
      && ShelfTotal(r.shelf, scope) <= cap
      && (r.gone != [] ==> Total(m[|r.gone| - 1..]) > cap)
    decreases |shelf.clips| + |shelf.thumbnails|
  {
    hide Merged, Select, FirstIn, Total;
    TotalOfNothing();
    TotalIsMerged(shelf, scope);
    TakeHead(shelf, scope);
    SelectFirst(shelf.clips, scope);
    SelectFirst(shelf.thumbnails, scope);
    if ShelfTotal(shelf, scope) > cap {
      if TakesClip(shelf, scope) {
        EvictHead(shelf, shelf.(clips := RemoveAt(shelf.clips, FirstIn(shelf.clips, scope))), scope, cap,
                  shelf.clips[FirstIn(shelf.clips, scope)]);
      } else if TakesThumbnail(shelf, scope) {
        EvictHead(shelf, shelf.(thumbnails := RemoveAt(shelf.thumbnails, FirstIn(shelf.thumbnails, scope))), scope, cap,
                  shelf.thumbnails[FirstIn(shelf.thumbnails, scope)]);
      }
    }
  }

  lemma TotalIsMerged(shelf: Shelf, scope: Scope)
    ensures ShelfTotal(shelf, scope) == Total(Merged(shelf, scope))
  {
    MergeTotal(Select(shelf.clips, scope, true), Select(shelf.thumbnails, scope, true));
  }

  /** The induction step: one head taken, then the rest. */
  lemma {:induction false} EvictHead(shelf: Shelf, next: Shelf, scope: Scope, cap: nat, head: Item)
    requires |next.clips| + |next.thumbnails| < |shelf.clips| + |shelf.thumbnails|
    requires Merged(shelf, scope) == [head] + Merged(next, scope) && SameOutside(next, shelf, scope)
    requires Total(Merged(shelf, scope)) > cap
    requires Evict(shelf, scope, cap) == var r := Evict(next, scope, cap); r.(gone := [head] + r.gone)
    ensures
      var m, r := Merged(shelf, scope), Evict(shelf, scope, cap);
      && |r.gone| <= |m| && r.gone == m[..|r.gone|] && Merged(r.shelf, scope) == m[|r.gone|..]
      && SameOutside(r.shelf, shelf, scope)
      && ShelfTotal(r.shelf, scope) <= cap
      && (r.gone != [] ==> Total(m[|r.gone| - 1..]) > cap)
    decreases |shelf.clips| + |shelf.thumbnails|, 0
  {
    EvictTakesOldestPrefix(next, scope, cap);
    hide *;
    var m, n := Merged(shelf, scope), Merged(next, scope);
    var r := Evict(next, scope, cap);
    assert m[1..] == n && m[0] == head;
    assert m[..|r.gone| + 1] == [head] + n[..|r.gone|];
    assert m[|r.gone| + 1..] == n[|r.gone|..];
    if r.gone == [] {
      assert m[0..] == m;
    } else {
      assert m[|r.gone|..] == n[|r.gone| - 1..];
    }
  }

  /** With entries in order of age, what goes is no younger than what stays. */
  lemma EvictedAreOldest(shelf: Shelf, scope: Scope, cap: nat, x: Item, y: Item)
    requires Sorted(shelf.clips) && Sorted(shelf.thumbnails)
    requires x in Evict(shelf, scope, cap).gone && y in Merged(Evict(shelf, scope, cap).shelf, scope)
    ensures x.created <= y.created
  {
    hide Evict, Select, Merge, Total;
    var m, r := Merged(shelf, scope), Evict(shelf, scope, cap);
    EvictTakesOldestPrefix(shelf, scope, cap);
    SelectSorted(shelf.clips, scope, true);
    SelectSorted(shelf.thumbnails, scope, true);
    MergeSorts(Select(shelf.clips, scope, true), Select(shelf.thumbnails, scope, true));
    var i :| 0 <= i < |r.gone| && r.gone[i] == x;
    var rest := Merged(r.shelf, scope);
    var j :| 0 <= j < |rest| && rest[j] == y;
    assert m[i] == x && m[|r.gone| + j] == y;
  }

  lemma {:induction false} SelectSorted(reg: Registry, scope: Scope, inside: bool)
    requires Sorted(reg)
    ensures Sorted(Select(reg, scope, inside)) && forall x :: x in Select(reg, scope, inside) ==> x in reg
  {
    if reg != [] {
      SelectSorted(reg[1..], scope, inside);
      var rest := Select(reg[1..], scope, inside);
      forall j | 0 <= j < |rest|
        ensures reg[0].created <= rest[j].created
      {
        assert rest[j] in reg[1..];
      }
    }
  }

  ghost predicate OnlyRemoves(now: Shelf, before: Shelf, other: Scope) {
    && ShelfTotal(now, other) <= ShelfTotal(before, other)
    && |now.clips| <= |before.clips| && |now.thumbnails| <= |before.thumbnails|
    && (Sorted(before.clips) ==> Sorted(now.clips)) && (Sorted(before.thumbnails) ==> Sorted(now.thumbnails))
  }

  lemma NextOnlyRemoves(shelf: Shelf, scope: Scope, other: Scope)
    ensures OnlyRemoves(WithoutNext(shelf, scope), shelf, other)
  {
    hide TotalIn, FirstIn;
    if TakesClip(shelf, scope) {
      TotalRemoved(shelf.clips, FirstIn(shelf.clips, scope), other);
    } else if TakesThumbnail(shelf, scope) {
      TotalRemoved(shelf.thumbnails, FirstIn(shelf.thumbnails, scope), other);
    }
  }

  /** An eviction only removes: every scope's total goes down or stays, order and
      counts are kept. */
  lemma {:induction false} EvictOnlyRemoves(shelf: Shelf, scope: Scope, cap: nat, other: Scope)
    ensures OnlyRemoves(Evict(shelf, scope, cap).shelf, shelf, other)
    decreases |shelf.clips| + |shelf.thumbnails|
  {
    hide ShelfTotal, Evict, EvictedNext, WithoutNext, Sorted;
    EvictUnfolds(shelf, scope, cap);
    if ShelfTotal(shelf, scope) > cap && EvictedNext(shelf, scope).Some? {
      NextOnlyRemoves(shelf, scope, other);
      EvictOnlyRemoves(WithoutNext(shelf, scope), scope, cap, other);
    }
  }

  /** Every entry on the shelf, in either registry. */
  ghost function Bag(shelf: Shelf): multiset<Item> {
    multiset(shelf.clips) + multiset(shelf.thumbnails)
  }

  lemma RemoveConserves(reg: Registry, i: nat)
    requires i < |reg|
    ensures multiset(RemoveAt(reg, i)) + multiset{reg[i]} == multiset(reg)
  {
    assert reg == reg[..i] + [reg[i]] + reg[i + 1..];
  }

  lemma ClipRemoved(shelf: Shelf, i: nat)
    requires i < |shelf.clips|
    ensures Bag(shelf.(clips := RemoveAt(shelf.clips, i))) + multiset{shelf.clips[i]} == Bag(shelf)
  {
    RemoveConserves(shelf.clips, i);
  }

  lemma ThumbnailRemoved(shelf: Shelf, j: nat)
    requires j < |shelf.thumbnails|
    ensures Bag(shelf.(thumbnails := RemoveAt(shelf.thumbnails, j))) + multiset{shelf.thumbnails[j]} == Bag(shelf)
  {
    RemoveConserves(shelf.thumbnails, j);
  }

  lemma GoneFirst(bag: multiset<Item>, head: Item, gone: seq<Item>)
    ensures bag + multiset([head] + gone) == (bag + multiset(gone)) + multiset{head}
  {
  }

  /** Nothing is lost: every entry is either still on the shelf or evicted. */
  lemma {:induction false} EvictConserves(shelf: Shelf, scope: Scope, cap: nat)
    ensures var r := Evict(shelf, scope, cap); Bag(r.shelf) + multiset(r.gone) == Bag(shelf)
    decreases |shelf.clips| + |shelf.thumbnails|
  {
    hide ShelfTotal, FirstIn, RemoveAt, TakesClip, TakesThumbnail, Bag;
    if ShelfTotal(shelf, scope) > cap {
      if TakesClip(shelf, scope) {
        var i := FirstIn(shelf.clips, scope);
        assert i < |shelf.clips| by {
          ClipTaken(shelf, scope);
        }
        var next := shelf.(clips := RemoveAt(shelf.clips, i));
        assert |next.clips| < |shelf.clips| by {
          RemoveShortens(shelf.clips, i);
        }
        EvictConserves(next, scope, cap);
        ClipRemoved(shelf, i);
        var r := Evict(next, scope, cap);
        GoneFirst(Bag(r.shelf), shelf.clips[i], r.gone);
      } else if TakesThumbnail(shelf, scope) {
        var j := FirstIn(shelf.thumbnails, scope);
        assert j < |shelf.thumbnails| by {
          ThumbnailTaken(shelf, scope);
        }
        var next := shelf.(thumbnails := RemoveAt(shelf.thumbnails, j));
        assert |next.thumbnails| < |shelf.thumbnails| by {
          RemoveShortens(shelf.thumbnails, j);
        }
        EvictConserves(next, scope, cap);
        ThumbnailRemoved(shelf, j);
        var r := Evict(next, scope, cap);
        GoneFirst(Bag(r.shelf), shelf.thumbnails[j], r.gone);
      }
    }
  }

  lemma ClipTaken(shelf: Shelf, scope: Scope)
    requires TakesClip(shelf, scope)
    ensures FirstIn(shelf.clips, scope) < |shelf.clips|
  {
  }

  lemma ThumbnailTaken(shelf: Shelf, scope: Scope)
    requires TakesThumbnail(shelf, scope)
    ensures FirstIn(shelf.thumbnails, scope) < |shelf.thumbnails|
  {
  }

  lemma RemoveShortens(reg: Registry, i: nat)
    requires i < |reg|
    ensures |RemoveAt(reg, i)| == |reg| - 1
  {
  }

  // ----- expiry and count caps -----

  /** The entries older than the cutoff, or those that are not, in order. */
  function Aged(reg: Registry, cutoff: Time, stale: bool): Registry {
    if reg == [] then []
    else
      var front, last := Aged(reg[..|reg| - 1], cutoff, stale), reg[|reg| - 1];
      if (last.created < cutoff) == stale then front + [last] else front
  }

  lemma {:induction false} AgedSplits(reg: Registry, cutoff: Time, scope: Scope)
    ensures multiset(Aged(reg, cutoff, true)) + multiset(Aged(reg, cutoff, false)) == multiset(reg)
    ensures TotalIn(Aged(reg, cutoff, false), scope) <= TotalIn(reg, scope)
    ensures |Aged(reg, cutoff, false)| <= |reg|
    ensures forall x :: x in Aged(reg, cutoff, false) <==> x in reg && x.created >= cutoff
  {
    if reg != [] {
      var front, last := reg[..|reg| - 1], reg[|reg| - 1];
      assert reg == front + [last];
      AgedSplits(front, cutoff, scope);
      TotalSnoc(front, last, scope);
      TotalSnoc(Aged(front, cutoff, false), last, scope);
      hide TotalIn;
    }
  }

  lemma TotalSnoc(reg: Registry, last: Item, scope: Scope)
    ensures TotalIn(reg + [last], scope) == TotalIn(reg, scope) + (if InScope(last, scope) then last.size else 0)
  {
    SelectConcat(reg, [last], scope, true);
    SelectCons(last, [], scope, true);
    assert [last] + [] == [last];
    TotalConcat(Select(reg, scope, true), Select([last], scope, true));
  }

  lemma {:induction false} AgedSorted(reg: Registry, cutoff: Time)
    requires Sorted(reg)
    ensures Sorted(Aged(reg, cutoff, false))
    ensures forall x :: x in Aged(reg, cutoff, false) ==> x in reg
  {
    if reg != [] {
      var front, last := reg[..|reg| - 1], reg[|reg| - 1];
      AgedSorted(front, cutoff);
      var kept := Aged(front, cutoff, false);
      forall i | 0 <= i < |kept|
        ensures kept[i].created <= last.created
      {
        assert kept[i] in front;
      }
    }
  }

  function Trimmed(reg: Registry, cap: nat): Registry {
    if |reg| > cap then reg[|reg| - cap..] else reg
  }

  function TrimmedOff(reg: Registry, cap: nat): Registry {
    if |reg| > cap then reg[..|reg| - cap] else []
  }

  // ----- what registering does -----

  datatype Limits = Limits(maxClips: nat, maxThumbnails: nat, maxBytes: nat, ttl: Option<nat>, maxSessions: nat)

  function Expired(shelf: Shelf, ttl: Option<nat>, now: Time): Eviction {
    if ttl.None? then Eviction(shelf, [])
    else
      var cutoff := now - ttl.value;
      Eviction(Shelf(Aged(shelf.clips, cutoff, false), Aged(shelf.thumbnails, cutoff, false)),
               Aged(shelf.clips, cutoff, true) + Aged(shelf.thumbnails, cutoff, true))
  }

  function CountCapped(shelf: Shelf, limits: Limits, clip: bool): Eviction {
    if clip then Eviction(shelf.(clips := Trimmed(shelf.clips, limits.maxClips)), TrimmedOff(shelf.clips, limits.maxClips))
    else
      Eviction(shelf.(thumbnails := Trimmed(shelf.thumbnails, limits.maxThumbnails)),
               TrimmedOff(shelf.thumbnails, limits.maxThumbnails))
  }

  function SessionCapped(shelf: Shelf, limits: Limits, session: Option<Session>): Eviction {
    if session.None? then Eviction(shelf, []) else Evict(shelf, Of(session.value), limits.maxBytes)
  }

  function Added(shelf: Shelf, item: Item, clip: bool): Shelf {
    if clip then shelf.(clips := shelf.clips + [item]) else shelf.(thumbnails := shelf.thumbnails + [item])
  }

  /** Insert, expire both registries, cap the one registry, cap the session. */
  function Registered(shelf: Shelf, limits: Limits, item: Item, clip: bool, now: Time): Eviction {
    var expired := Expired(Added(shelf, item, clip), limits.ttl, now);
    var counted := CountCapped(expired.shelf, limits, clip);
    var capped := SessionCapped(counted.shelf, limits, item.session);
    Eviction(capped.shelf, expired.gone + counted.gone + capped.gone)
  }

  /** Count caps hold, every session is within its bytes, and both registries are
      in order of age, none younger than the clock. */
  ghost predicate WithinLimits(shelf: Shelf, limits: Limits, clock: Time) {
    && |shelf.clips| <= limits.maxClips && |shelf.thumbnails| <= limits.maxThumbnails
    && (forall s: Session :: ShelfTotal(shelf, Of(s)) <= limits.maxBytes)
    && Sorted(shelf.clips) && Sorted(shelf.thumbnails)
    && (forall x :: x in shelf.clips || x in shelf.thumbnails ==> x.created <= clock)
  }

  lemma ExpiredConserves(shelf: Shelf, ttl: Option<nat>, now: Time)
    ensures var r := Expired(shelf, ttl, now); Bag(r.shelf) + multiset(r.gone) == Bag(shelf)
  {
    hide Aged;
    if ttl.Some? {
      AgedSplits(shelf.clips, now - ttl.value, Everyone);
      AgedSplits(shelf.thumbnails, now - ttl.value, Everyone);
    }
  }

  lemma ExpiredOnlyRemoves(shelf: Shelf, ttl: Option<nat>, now: Time, other: Scope)
    ensures
      var r := Expired(shelf, ttl, now);
      && ShelfTotal(r.shelf, other) <= ShelfTotal(shelf, other)
      && |r.shelf.clips| <= |shelf.clips| && |r.shelf.thumbnails| <= |shelf.thumbnails|
      && Bag(r.shelf) + multiset(r.gone) == Bag(shelf)
      && (Sorted(shelf.clips) ==> Sorted(r.shelf.clips))
      && (Sorted(shelf.thumbnails) ==> Sorted(r.shelf.thumbnails))
  {
    hide TotalIn, Aged, Bag, Sorted;
    ExpiredConserves(shelf, ttl, now);
    if ttl.Some? {
      AgedSplits(shelf.clips, now - ttl.value, other);
      AgedSplits(shelf.thumbnails, now - ttl.value, other);
      if Sorted(shelf.clips) {
        AgedSorted(shelf.clips, now - ttl.value);
      }
      if Sorted(shelf.thumbnails) {
        AgedSorted(shelf.thumbnails, now - ttl.value);
      }
    }
  }

  lemma CountCappedOnlyRemoves(shelf: Shelf, limits: Limits, clip: bool, other: Scope)
    ensures
      var r := CountCapped(shelf, limits, clip);
      && ShelfTotal(r.shelf, other) <= ShelfTotal(shelf, other)
      && |r.shelf.clips| <= |shelf.clips| && |r.shelf.thumbnails| <= |shelf.thumbnails|
      && Bag(r.shelf) + multiset(r.gone) == Bag(shelf)
      && (Sorted(shelf.clips) ==> Sorted(r.shelf.clips))
      && (Sorted(shelf.thumbnails) ==> Sorted(r.shelf.thumbnails))
      && (if clip then |r.shelf.clips| <= limits.maxClips else |r.shelf.thumbnails| <= limits.maxThumbnails)
  {
    hide TotalIn, Trimmed, TrimmedOff, Sorted;
    TrimmedOnlyRemoves(shelf.clips, limits.maxClips, other);
    TrimmedOnlyRemoves(shelf.thumbnails, limits.maxThumbnails, other);
  }

  lemma TrimmedOnlyRemoves(reg: Registry, cap: nat, other: Scope)
    ensures TotalIn(Trimmed(reg, cap), other) <= TotalIn(reg, other)
    ensures |Trimmed(reg, cap)| <= |reg| && |Trimmed(reg, cap)| <= cap
    ensures multiset(Trimmed(reg, cap)) + multiset(TrimmedOff(reg, cap)) == multiset(reg)
    ensures Sorted(reg) ==> Sorted(Trimmed(reg, cap))
  {
    hide TotalIn;
    if |reg| > cap {
      TotalSuffix(reg, |reg| - cap, other);
      assert reg == reg[..|reg| - cap] + reg[|reg| - cap..];
    }
  }

  /** The totals of another session never grow when an item is registered. */
  lemma RegisteredTotals(shelf: Shelf, limits: Limits, item: Item, clip: bool, now: Time, s: Session)
    requires ShelfTotal(shelf, Of(s)) <= limits.maxBytes
    ensures ShelfTotal(Registered(shelf, limits, item, clip, now).shelf, Of(s)) <= limits.maxBytes
  {
    hide TotalIn, Expired, CountCapped, Evict;
    var added := Added(shelf, item, clip);
    var expired := Expired(added, limits.ttl, now);
    var counted := CountCapped(expired.shelf, limits, clip);
    ExpiredOnlyRemoves(added, limits.ttl, now, Of(s));
    CountCappedOnlyRemoves(expired.shelf, limits, clip, Of(s));
    if item.session == Some(s) {
      EvictTakesOldestPrefix(counted.shelf, Of(s), limits.maxBytes);
    } else {
      TotalSnoc(shelf.clips, item, Of(s));
      TotalSnoc(shelf.thumbnails, item, Of(s));
      if item.session.Some? {
        EvictOnlyRemoves(counted.shelf, Of(item.session.value), limits.maxBytes, Of(s));
      }
    }
  }

  lemma AddedBag(shelf: Shelf, item: Item, clip: bool)
    ensures Bag(Added(shelf, item, clip)) == Bag(shelf) + multiset{item}
  {
  }

  lemma SessionCappedConserves(shelf: Shelf, limits: Limits, session: Option<Session>)
    ensures var r := SessionCapped(shelf, limits, session); Bag(r.shelf) + multiset(r.gone) == Bag(shelf)
  {
    hide Evict, Bag;
    if session.Some? {
      EvictConserves(shelf, Of(session.value), limits.maxBytes);
    }
  }

  lemma GoneTogether(start: multiset<Item>, left: multiset<Item>, a: seq<Item>, b: seq<Item>, c: seq<Item>)
    requires left + multiset(c) + multiset(b) + multiset(a) == start
    ensures left + multiset(a + b + c) == start
  {
    assert multiset(a + b + c) == multiset(a) + multiset(b) + multiset(c);
  }

  /** Every entry is afterwards on the shelf or among the evicted, once. */
  lemma RegisteredConserves(shelf: Shelf, limits: Limits, item: Item, clip: bool, now: Time)
    ensures
      var r := Registered(shelf, limits, item, clip, now);
      Bag(r.shelf) + multiset(r.gone) == Bag(shelf) + multiset{item}
  {
    hide Expired, CountCapped, SessionCapped, Added, Bag;
    var added := Added(shelf, item, clip);
    var expired := Expired(added, limits.ttl, now);
    var counted := CountCapped(expired.shelf, limits, clip);
    var capped := SessionCapped(counted.shelf, limits, item.session);
    AddedBag(shelf, item, clip);
    ExpiredConserves(added, limits.ttl, now);
    CountCappedOnlyRemoves(expired.shelf, limits, clip, Everyone);
    SessionCappedConserves(counted.shelf, limits, item.session);
    GoneTogether(Bag(shelf) + multiset{item}, Bag(capped.shelf), expired.gone, counted.gone, capped.gone);
  }

  /** After every register both count caps and every session's byte cap hold. */
  lemma RegisteredWithinLimits(shelf: Shelf, limits: Limits, item: Item, clip: bool, now: Time, clock: Time)
    requires WithinLimits(shelf, limits, clock) && clock <= item.created <= now
    ensures WithinLimits(Registered(shelf, limits, item, clip, now).shelf, limits, now)
  {
    hide TotalIn, Expired, CountCapped, Evict;
    var r := Registered(shelf, limits, item, clip, now);
    forall s: Session
      ensures ShelfTotal(r.shelf, Of(s)) <= limits.maxBytes
    {
      RegisteredTotals(shelf, limits, item, clip, now, s);
    }
    RegisteredConserves(shelf, limits, item, clip, now);
    forall x | x in r.shelf.clips || x in r.shelf.thumbnails
      ensures x.created <= now
    {
      assert x in Bag(r.shelf) + multiset(r.gone);
    }
    RegisteredOrder(shelf, limits, item, clip, now);
  }

  lemma RegisteredOrder(shelf: Shelf, limits: Limits, item: Item, clip: bool, now: Time)
    requires |shelf.clips| <= limits.maxClips && |shelf.thumbnails| <= limits.maxThumbnails
    requires Sorted(shelf.clips) && Sorted(shelf.thumbnails)
    requires forall x :: x in shelf.clips || x in shelf.thumbnails ==> x.created <= item.created
    ensures
      var r := Registered(shelf, limits, item, clip, now).shelf;
      && |r.clips| <= limits.maxClips && |r.thumbnails| <= limits.maxThumbnails
      && Sorted(r.clips) && Sorted(r.thumbnails)
  {
    hide Expired, CountCapped, Evict, ShelfTotal;
    var added := Added(shelf, item, clip);
    assert Sorted(added.clips) && Sorted(added.thumbnails);
    var expired := Expired(added, limits.ttl, now);
    var counted := CountCapped(expired.shelf, limits, clip);
    ExpiredOnlyRemoves(added, limits.ttl, now, Everyone);
    CountCappedOnlyRemoves(expired.shelf, limits, clip, Everyone);
    CountCappedLeavesOther(expired.shelf, limits, clip);
    if item.session.Some? {
      EvictOnlyRemoves(counted.shelf, Of(item.session.value), limits.maxBytes, Everyone);
    }
  }

  lemma CountCappedLeavesOther(shelf: Shelf, limits: Limits, clip: bool)
    ensures
      var r := CountCapped(shelf, limits, clip).shelf;
      if clip then r.thumbnails == shelf.thumbnails else r.clips == shelf.clips
  {
  }

  // ----- files -----

  function PathsOf(reg: Registry): set<Path> {
    set x | x in reg :: x.path
  }

  /** The paths some entry names. */
  function Named(shelf: Shelf): set<Path> {
    PathsOf(shelf.clips) + PathsOf(shelf.thumbnails)
  }

  /** The paths an entry or a reservation names. */
  function Live(shelf: Shelf, reserved: set<Path>): set<Path> {
    Named(shelf) + reserved
  }

  function Unlinked(disk: map<Path, nat>, gone: seq<Item>, live: set<Path>): map<Path, nat> {
    disk - (PathsOf(gone) - live)
  }

  /** Registering unlinks exactly the evicted paths nobody names any more: it
      never removes a file a surviving entry or reservation names, even when one
      path has many ids, and leaves no unnamed evicted file behind. */
  lemma RegisterUnlinksExactly(shelf: Shelf, limits: Limits, item: Item, clip: bool, now: Time,
                               reserved: set<Path>, disk: map<Path, nat>, p: Path)
    ensures
      var r := Registered(shelf, limits, item, clip, now);
      var live := Live(r.shelf, reserved - {item.path});
      var after := Unlinked(disk, r.gone, live);
      && (p in disk && p in live ==> p in after && after[p] == disk[p])
      && ((exists x :: (x in Bag(shelf) || x == item) && x.path == p) && p !in live ==> p !in after)
      && (p in disk && p !in after ==> exists x :: x in r.gone && x.path == p)
  {
    hide Registered;
    var r := Registered(shelf, limits, item, clip, now);
    var live := Live(r.shelf, reserved - {item.path});
    RegisteredConserves(shelf, limits, item, clip, now);
    if x :| (x in Bag(shelf) || x == item) && x.path == p && p !in live {
      assert x in Bag(r.shelf) + multiset(r.gone);
      assert x !in r.shelf.clips && x !in r.shelf.thumbnails;
    }
  }

  lemma RegisterNames(shelf: Shelf, limits: Limits, item: Item, clip: bool, now: Time)
    ensures
      var r := Registered(shelf, limits, item, clip, now);
      Named(r.shelf) <= Named(shelf) + {item.path}
  {
    hide Registered;
    var r := Registered(shelf, limits, item, clip, now);
    RegisteredConserves(shelf, limits, item, clip, now);
    forall p | p in Named(r.shelf)
      ensures p in Named(shelf) + {item.path}
    {
      var x :| (x in r.shelf.clips || x in r.shelf.thumbnails) && x.path == p;
      assert x in Bag(r.shelf) + multiset(r.gone);
      assert x in Bag(shelf) || x == item;
    }
  }

  lemma EvictNames(shelf: Shelf, scope: Scope, cap: nat)
    ensures Named(Evict(shelf, scope, cap).shelf) <= Named(shelf)
  {
    hide Evict;
    var r := Evict(shelf, scope, cap);
    EvictConserves(shelf, scope, cap);
    forall p | p in Named(r.shelf)
      ensures p in Named(shelf)
    {
      var x :| (x in r.shelf.clips || x in r.shelf.thumbnails) && x.path == p;
      assert x in Bag(r.shelf) + multiset(r.gone);
    }
  }

  // ----- the store and its steps -----

  /** A session keeps its files in a directory named after it. */
  predicate Under(path: Path, session: Session) {
    session + "/" <= path
  }

  /** `sweeps` holds the snapshots of sweeps that have not finished deleting,
      `sessions` the index from the least to the most recently used, and `dropped`
      the sessions that fell out of it. */
  datatype Store = Store(
    shelf: Shelf, reserved: set<Path>, disk: map<Path, nat>, clock: Time, sweeps: set<set<Path>>,
    sessions: seq<Session>, dropped: set<Session>)

  /** Sweeps and directory removals delete file by file outside the lock: `Sweep`
      and `RemoveTree` are any stretch of one. */
  datatype Step =
    | Reserve(path: Path)
    | Write(path: Path, size: nat)
    | Abort(path: Path)
    | Register(path: Path, session: Option<Session>, id: Id, now: Time, later: Time, clip: bool)
    | CapAll(maxBytes: int)
    | Snapshot
    | Sweep(keep: set<Path>, files: set<Path>)
    | Open(newcomer: Session)
    | Touch(used: Session)
    | RemoveTree(owner: Session, files: set<Path>)

  /** The index without one session. */
  function Others(sessions: seq<Session>, s: Session): seq<Session> {
    if sessions == [] then []
    else (if sessions[0] == s then [] else [sessions[0]]) + Others(sessions[1..], s)
  }

  function Touched(sessions: seq<Session>, s: Session): seq<Session> {
    if s in sessions then Others(sessions, s) + [s] else sessions
  }

  /** The shelf without the entries of one session. */
  function Disowned(shelf: Shelf, session: Session): Shelf {
    Shelf(Select(shelf.clips, Of(session), false), Select(shelf.thumbnails, Of(session), false))
  }

  /** A new session joins the index; beyond the cap the least recently used leaves
      it with its entries, while its files stay for the moment. */
  function AfterOpen(limits: Limits, s: Store, session: Session): Store {
    var all := s.sessions + [session];
    if |all| <= limits.maxSessions then s.(sessions := all)
    else s.(sessions := all[1..], dropped := s.dropped + {all[0]}, shelf := Disowned(s.shelf, all[0]))
  }

  /** Stamped at `now`; `later` is when the entries are checked for expiry. */
  function AfterRegister(limits: Limits, s: Store, item: Item, clip: bool, later: Time): Store {
    var r := Registered(s.shelf, limits, item, clip, later);
    var reserved := s.reserved - {item.path};
    s.(shelf := r.shelf, reserved := reserved, disk := Unlinked(s.disk, r.gone, Live(r.shelf, reserved)), clock := later)
  }

  function AfterCap(s: Store, maxBytes: nat): Store {
    var r := Evict(s.shelf, Everyone, maxBytes);
    s.(shelf := r.shelf, disk := Unlinked(s.disk, r.gone, Live(r.shelf, s.reserved)))
  }

  function Apply(limits: Limits, s: Store, e: Step): Store {
    match e
    case Reserve(path) => s.(reserved := s.reserved + {path})
    case Write(path, size) => s.(disk := s.disk[path := size])
    case Abort(path) => s.(reserved := s.reserved - {path}, disk := s.disk - {path})
    case Register(path, session, id, now, later, clip) =>
      if path !in s.disk then s.(clock := later)
      else AfterRegister(limits, s, Item(id, path, session, s.disk[path], now), clip, later)
    case CapAll(maxBytes) => if maxBytes <= 0 then s else AfterCap(s, maxBytes)
    case Snapshot => s.(sweeps := s.sweeps + {Live(s.shelf, s.reserved)})
    case Sweep(keep, files) => s.(disk := s.disk - (files - keep))
    case Open(session) => AfterOpen(limits, s, session)
    case Touch(session) => s.(sessions := Touched(s.sessions, session))
    case RemoveTree(_, files) => s.(disk := s.disk - files)
  }

  lemma {:induction false} SelectTotals(reg: Registry, scope: Scope, inside: bool, other: Scope)
    ensures TotalIn(Select(reg, scope, inside), other) <= TotalIn(reg, other)
    ensures |Select(reg, scope, inside)| <= |reg|
  {
    if reg != [] {
      var x, rest := reg[0], reg[1..];
      assert reg == [x] + rest;
      SelectTotals(rest, scope, inside, other);
      SelectCons(x, rest, scope, inside);
      SelectCons(x, rest, other, true);
      SelectCons(x, Select(rest, scope, inside), other, true);
    }
  }

  lemma DisownedWithinLimits(shelf: Shelf, session: Session, limits: Limits, clock: Time)
    requires WithinLimits(shelf, limits, clock)
    ensures WithinLimits(Disowned(shelf, session), limits, clock)
  {
    var scope := Of(session);
    hide Sorted, TotalIn, Select;
    SelectSorted(shelf.clips, scope, false);
    SelectSorted(shelf.thumbnails, scope, false);
    forall s: Session
      ensures ShelfTotal(Disowned(shelf, session), Of(s)) <= limits.maxBytes
    {
      SelectTotals(shelf.clips, scope, false, Of(s));
      SelectTotals(shelf.thumbnails, scope, false, Of(s));
    }
    SelectTotals(shelf.clips, scope, false, Everyone);
    SelectTotals(shelf.thumbnails, scope, false, Everyone);
  }

  /** The entries that stay are those of the other sessions. */
  lemma DisownedEntries(shelf: Shelf, session: Session)
    ensures forall x :: x in Disowned(shelf, session).clips <==> x in shelf.clips && x.session != Some(session)
    ensures forall x :: x in Disowned(shelf, session).thumbnails <==> x in shelf.thumbnails && x.session != Some(session)
    ensures Named(Disowned(shelf, session)) <= Named(shelf)
  {
    SelectMembers(shelf.clips, Of(session), false);
    SelectMembers(shelf.thumbnails, Of(session), false);
  }

  lemma {:induction false} SelectMembers(reg: Registry, scope: Scope, inside: bool)
    ensures forall x :: x in Select(reg, scope, inside) <==> x in reg && InScope(x, scope) == inside
  {
    if reg != [] {
      assert forall x :: x in reg <==> x == reg[0] || x in reg[1..];
      SelectMembers(reg[1..], scope, inside);
    }
  }

  // ----- the store -----

  class SessionStore {
    const limits: Limits
    var clips: Registry
    var thumbnails: Registry
    var reserved: set<Path>
    var disk: map<Path, nat>
    ghost var clock: Time
    ghost var sweeps: set<set<Path>>
    var sessions: seq<Session>
    ghost var dropped: set<Session>

    function Value(): Shelf
      reads this
    {
      Shelf(clips, thumbnails)
    }

    ghost function State(): Store
      reads this
    {
      Store(Value(), reserved, disk, clock, sweeps, sessions, dropped)
    }

    /** All caps hold, whatever has happened to the files. */
    ghost predicate Valid()
      reads this
    {
      WithinLimits(Value(), limits, clock)
    }

    constructor (limits: Limits, clock: Time)
      ensures Valid() && State() == Store(Shelf([], []), {}, map[], clock, {}, [], {}) && this.limits == limits
    {
      this.limits := limits;
      clips, thumbnails, reserved, disk := [], [], {}, map[];
      this.clock, sweeps := clock, {};
      sessions, dropped := [], {};
    }

    /** A new session; the least recently used one may have to leave. */
    method OpenSession(session: Session) returns (evicted: Option<Session>)
      modifies this`sessions, this`dropped, this`clips, this`thumbnails
      ensures old(Valid()) ==> Valid()
      ensures State() == Apply(limits, old(State()), Open(session))
      ensures evicted.Some? <==> |old(sessions)| >= limits.maxSessions
      ensures evicted.Some? ==> evicted.value == (old(sessions) + [session])[0] && evicted.value in dropped
    {
      hide WithinLimits, Select;
      sessions := sessions + [session];
      if |sessions| <= limits.maxSessions {
        return None;
      }
      evicted := Some(sessions[0]);
      sessions := sessions[1..];
      dropped := dropped + {evicted.value};
      if old(Valid()) {
        DisownedWithinLimits(Value(), evicted.value, limits, clock);
      }
      DropSessionEntries(evicted.value);
    }

    method DropSessionEntries(session: Session)
      modifies this`clips, this`thumbnails
      ensures Value() == Disowned(old(Value()), session)
    {
      clips := DropFrom(clips, session);
      thumbnails := DropFrom(thumbnails, session);
    }

    method DropFrom(reg: Registry, session: Session) returns (kept: Registry)
      ensures kept == Select(reg, Of(session), false)
    {
      kept := [];
      for i := 0 to |reg|
        invariant kept == Select(reg[..i], Of(session), false)
      {
        hide Select;
        assert reg[..i + 1] == reg[..i] + [reg[i]] && [reg[i]] + [] == [reg[i]];
        SelectConcat(reg[..i], [reg[i]], Of(session), false);
        SelectCons(reg[i], [], Of(session), false);
        SelectNothing([], Of(session), false);
        if reg[i].session != Some(session) {
          kept := kept + [reg[i]];
        }
      }
      assert reg[..|reg|] == reg;
    }

    /** Looking a session up makes it the most recently used. */
    method GetSession(session: Session) returns (found: bool)
      modifies this`sessions
      ensures State() == Apply(limits, old(State()), Touch(session))
      ensures found == (session in old(sessions))
    {
      found := session in sessions;
      if found {
        sessions := Others(sessions, session) + [session];
      }
    }

    /** What follows the eviction of a session, outside the lock. */
    method RemoveDirectory(session: Session)
      modifies this`disk
      ensures State() == Apply(limits, old(State()), RemoveTree(session, set p | p in old(disk) && Under(p, session)))
    {
      disk := disk - set p | p in disk && Under(p, session);
    }

    method ReservePath(path: Path)
      modifies this`reserved
      ensures State() == Apply(limits, old(State()), Reserve(path))
    {
      reserved := reserved + {path};
    }

    /** A renderer finishes writing a file. */
    method WriteFile(path: Path, size: nat)
      modifies this`disk
      ensures State() == Apply(limits, old(State()), Write(path, size))
    {
      disk := disk[path := size];
    }

    method AbortPath(path: Path)
      modifies this`reserved, this`disk
      ensures State() == Apply(limits, old(State()), Abort(path))
    {
      reserved := reserved - {path};
      disk := disk - {path};
    }

    method ExpireRegistry(reg: Registry, cutoff: Time) returns (kept: Registry, stale: seq<Item>)
      ensures kept == Aged(reg, cutoff, false) && stale == Aged(reg, cutoff, true)
    {
      kept, stale := [], [];
      for i := 0 to |reg|
        invariant kept == Aged(reg[..i], cutoff, false) && stale == Aged(reg[..i], cutoff, true)
      {
        assert reg[..i + 1][..i] == reg[..i];
        if reg[i].created < cutoff {
          stale := stale + [reg[i]];
        } else {
          kept := kept + [reg[i]];
        }
      }
      assert reg[..|reg|] == reg;
    }

    method ExpireTtl(now: Time) returns (evicted: seq<Item>)
      modifies this`clips, this`thumbnails
      ensures Eviction(Value(), evicted) == Expired(old(Value()), limits.ttl, now)
    {
      evicted := [];
      if limits.ttl.Some? {
        var cutoff := now - limits.ttl.value;
        var staleClips, staleThumbnails;
        clips, staleClips := ExpireRegistry(clips, cutoff);
        thumbnails, staleThumbnails := ExpireRegistry(thumbnails, cutoff);
        evicted := staleClips + staleThumbnails;
      }
    }

    /** Pop from the front until the registry fits its count. */
    method PopOldest(reg: Registry, cap: nat) returns (kept: Registry, popped: seq<Item>)
      ensures kept == Trimmed(reg, cap) && popped == TrimmedOff(reg, cap)
    {
      kept, popped := reg, [];
      while |kept| > cap
        invariant popped + kept == reg
        invariant |popped| == 0 || |kept| >= cap
        decreases |kept|
      {
        assert popped + kept == (popped + [kept[0]]) + kept[1..];
        popped := popped + [kept[0]];
        kept := kept[1..];
      }
      assert reg[|popped|..] == kept && reg[..|popped|] == popped;
    }

    method FindFirst(reg: Registry, session: Session) returns (i: nat)
      ensures i == FirstIn(reg, Of(session))
    {
      i := 0;
      while i < |reg| && reg[i].session != Some(session)
        invariant i <= |reg|
        invariant FirstIn(reg, Of(session)) == i + FirstIn(reg[i..], Of(session))
      {
        assert reg[i..][1..] == reg[i + 1..];
        i := i + 1;
      }
    }

    /** Take the oldest entry of one session out of its registry. */
    method PopOldestOf(session: Session) returns (popped: Option<Item>)
      modifies this`clips, this`thumbnails
      ensures popped == EvictedNext(old(Value()), Of(session))
      ensures Value() == WithoutNext(old(Value()), Of(session))
    {
      var i := FindFirst(clips, session);
      var j := FindFirst(thumbnails, session);
      hide FirstIn;
      if i == |clips| && j == |thumbnails| {
        return None;
      }
      if i < |clips| && (j == |thumbnails| || clips[i].created <= thumbnails[j].created) {
        popped := Some(clips[i]);
        clips := RemoveAt(clips, i);
      } else {
        popped := Some(thumbnails[j]);
        thumbnails := RemoveAt(thumbnails, j);
      }
    }

    method EnforceSessionBytes(session: Option<Session>) returns (evicted: seq<Item>)
      modifies this`clips, this`thumbnails
      ensures Eviction(Value(), evicted) == SessionCapped(old(Value()), limits, session)
    {
      evicted := [];
      if session.None? {
        return;
      }
      hide ShelfTotal, Evict, EvictedNext, WithoutNext;
      var scope := Of(session.value);
      EvictUnfolds(Value(), scope, limits.maxBytes);
      while ShelfTotal(Value(), scope) > limits.maxBytes
        invariant Evict(old(Value()), scope, limits.maxBytes)
               == var r := Evict(Value(), scope, limits.maxBytes); r.(gone := evicted + r.gone)
        invariant ShelfTotal(Value(), scope) <= limits.maxBytes ==> Evict(Value(), scope, limits.maxBytes) == Eviction(Value(), [])
        decreases |clips| + |thumbnails|
      {
        ghost var before := Value();
        EvictUnfolds(before, scope, limits.maxBytes);
        var popped := PopOldestOf(session.value);
        if popped.None? {
          return;
        }
        EvictUnfolds(Value(), scope, limits.maxBytes);
        ghost var rest := Evict(Value(), scope, limits.maxBytes).gone;
        assert evicted + ([popped.value] + rest) == (evicted + [popped.value]) + rest;
        evicted := evicted + [popped.value];
      }
    }

    method DeleteOrphanedFiles(evicted: seq<Item>)
      modifies this`disk
      ensures disk == Unlinked(old(disk), evicted, Live(Value(), reserved))
    {
      var live := Live(Value(), reserved);
      for k := 0 to |evicted|
        invariant disk == Unlinked(old(disk), evicted[..k], live)
      {
        assert evicted[..k + 1] == evicted[..k] + [evicted[k]];
        assert PathsOf(evicted[..k + 1]) == PathsOf(evicted[..k]) + {evicted[k].path};
        if evicted[k].path !in live {
          disk := disk - {evicted[k].path};
        }
      }
      assert evicted[..|evicted|] == evicted;
    }

    /** Insert the entry, expire both registries, cap the one registry, cap the
        session. */
    method Shelve(item: Item, clip: bool, later: Time) returns (evicted: seq<Item>)
      modifies this`clips, this`thumbnails
      ensures Eviction(Value(), evicted) == Registered(old(Value()), limits, item, clip, later)
    {
      hide Expired, Evict, Trimmed, TrimmedOff;
      var popped;
      if clip {
        clips := clips + [item];
        evicted := ExpireTtl(later);
        clips, popped := PopOldest(clips, limits.maxClips);
      } else {
        thumbnails := thumbnails + [item];
        evicted := ExpireTtl(later);
        thumbnails, popped := PopOldest(thumbnails, limits.maxThumbnails);
      }
      var capped := EnforceSessionBytes(item.session);
      evicted := evicted + popped + capped;
    }

    /** Register a clip; `now` is when it is stamped, `later` when the entries are
        checked for expiry. None when the file is gone. */
    method RegisterClip(path: Path, session: Option<Session>, id: Id, now: Time, later: Time) returns (r: Option<Id>)
      requires Valid() && clock <= now <= later
      modifies this
      ensures Valid()
      ensures State() == Apply(limits, old(State()), Register(path, session, id, now, later, true))
      ensures r == if path in old(disk) then Some(id) else None
      ensures r.None? ==> Value() == old(Value()) && reserved == old(reserved) && disk == old(disk)
    {
      hide WithinLimits, Apply, Registered, Unlinked, Live;
      RegisterStep(limits, State(), path, session, id, now, later, true);
      clock := later;
      if path !in disk {
        WithinLater(Value(), limits, old(clock), later);
        return None;
      }
      var item := Item(id, path, session, disk[path], now);
      RegisteredWithinLimits(Value(), limits, item, true, later, old(clock));
      reserved := reserved - {path};
      var evicted := Shelve(item, true, later);
      DeleteOrphanedFiles(evicted);
      return Some(id);
    }

    method RegisterThumbnail(path: Path, session: Option<Session>, id: Id, now: Time, later: Time)
      returns (r: Option<Id>)
      requires Valid() && clock <= now <= later
      modifies this
      ensures Valid()
      ensures State() == Apply(limits, old(State()), Register(path, session, id, now, later, false))
      ensures r == if path in old(disk) then Some(id) else None
      ensures r.None? ==> Value() == old(Value()) && reserved == old(reserved) && disk == old(disk)
    {
      hide WithinLimits, Apply, Registered, Unlinked, Live;
      RegisterStep(limits, State(), path, session, id, now, later, false);
      clock := later;
      if path !in disk {
        WithinLater(Value(), limits, old(clock), later);
        return None;
      }
      var item := Item(id, path, session, disk[path], now);
      RegisteredWithinLimits(Value(), limits, item, false, later, old(clock));
      reserved := reserved - {path};
      var evicted := Shelve(item, false, later);
      DeleteOrphanedFiles(evicted);
      return Some(id);
    }

    /** Evict the oldest entries of any session until the total fits; a cap of
        zero or less disables the check. */
    method EnforceGlobalCap(maxBytes: int) returns (dropped: nat)
      modifies this`clips, this`thumbnails, this`disk
      ensures old(Valid()) ==> Valid()
      ensures State() == Apply(limits, old(State()), CapAll(maxBytes))
      ensures maxBytes <= 0 ==> dropped == 0
      ensures maxBytes > 0 ==>
                dropped == |Evict(old(Value()), Everyone, maxBytes).gone| && ShelfTotal(Value(), Everyone) <= maxBytes
    {
      if maxBytes <= 0 {
        return 0;
      }
      ghost var before := Value();
      var evicted := EvictGlobally(maxBytes);
      EvictTakesOldestPrefix(before, Everyone, maxBytes);
      if old(Valid()) {
        EvictWithinLimits(before, Everyone, maxBytes, limits, clock);
      }
      hide WithinLimits, Evict, Unlinked, Live;
      DeleteOrphanedFiles(evicted);
      return |evicted|;
    }

    method EvictGlobally(maxBytes: nat) returns (evicted: seq<Item>)
      modifies this`clips, this`thumbnails
      ensures Eviction(Value(), evicted) == Evict(old(Value()), Everyone, maxBytes)
    {
      evicted := [];
      while ShelfTotal(Value(), Everyone) > maxBytes
        invariant Evict(old(Value()), Everyone, maxBytes)
               == var r := Evict(Value(), Everyone, maxBytes); r.(gone := evicted + r.gone)
        decreases |clips| + |thumbnails|
      {
        hide ShelfTotal;
        ghost var rest := Evict(Value(), Everyone, maxBytes).gone;
        if clips == [] && thumbnails == [] {
          break;
        }
        if clips != [] && (thumbnails == [] || clips[0].created <= thumbnails[0].created) {
          assert evicted + rest == (evicted + [clips[0]]) + rest[1..];
          assert RemoveAt(clips, 0) == clips[1..];
          evicted := evicted + [clips[0]];
          clips := clips[1..];
        } else {
          assert evicted + rest == (evicted + [thumbnails[0]]) + rest[1..];
          assert RemoveAt(thumbnails, 0) == thumbnails[1..];
          evicted := evicted + [thumbnails[0]];
          thumbnails := thumbnails[1..];
        }
      }
    }

    /** First half of a sweep: what is tracked at this moment. */
    method SnapshotTracked() returns (keep: set<Path>)
      modifies this`sweeps
      ensures keep == Live(Value(), reserved)
      ensures State() == Apply(limits, old(State()), Snapshot)
    {
      keep := PathsOf(clips);
      keep := keep + PathsOf(thumbnails);
      keep := keep + reserved;
      sweeps := sweeps + {keep};
    }

    /** Second half, outside the lock: delete every file not in the snapshot. */
    method DeleteUntracked(keep: set<Path>) returns (removed: nat)
      modifies this`disk
      ensures State() == Apply(limits, old(State()), Sweep(keep, old(disk).Keys))
      ensures removed == |old(disk).Keys - keep|
    {
      removed := DeleteFiles(disk.Keys - keep);
    }

    method DeleteFiles(files: set<Path>) returns (removed: nat)
      modifies this`disk
      ensures disk == old(disk) - files && removed == |files|
    {
      removed := 0;
      var rest := files;
      assert files - rest == {};
      while rest != {}
        invariant rest <= files && disk == old(disk) - (files - rest)
        invariant removed + |rest| == |files|
      {
        ghost var member := SomeMember(rest);
        var f :| f in rest;
        OneFileLess(old(disk), files, rest, f);
        rest := rest - {f};
        disk := disk - {f};
        removed := removed + 1;
      }
      assert files - rest == files;
    }
  }

  lemma OneFileLess(disk: map<Path, nat>, all: set<Path>, rest: set<Path>, f: Path)
    requires f in rest && rest <= all
    ensures disk - (all - rest) - {f} == disk - (all - (rest - {f}))
    ensures |rest - {f}| == |rest| - 1
  {
    assert (all - rest) + {f} == all - (rest - {f});
  }

  lemma EvictWithinLimits(shelf: Shelf, scope: Scope, cap: nat, limits: Limits, clock: Time)
    requires WithinLimits(shelf, limits, clock)
    ensures WithinLimits(Evict(shelf, scope, cap).shelf, limits, clock)
  {
    hide Evict, ShelfTotal;
    var r := Evict(shelf, scope, cap);
    forall s: Session
      ensures ShelfTotal(r.shelf, Of(s)) <= limits.maxBytes
    {
      EvictOnlyRemoves(shelf, scope, cap, Of(s));
    }
    EvictOnlyRemoves(shelf, scope, cap, Everyone);
    EvictConserves(shelf, scope, cap);
    forall x | x in r.shelf.clips || x in r.shelf.thumbnails
      ensures x.created <= clock
    {
      assert x in Bag(r.shelf) + multiset(r.gone);
    }
  }

  lemma RegisterStep(limits: Limits, s: Store, path: Path, session: Option<Session>, id: Id, now: Time, later: Time, clip: bool)
    ensures Apply(limits, s, Register(path, session, id, now, later, clip))
         == if path !in s.disk then s.(clock := later)
            else AfterRegister(limits, s, Item(id, path, session, s.disk[path], now), clip, later)
  {
  }

  lemma WithinLater(shelf: Shelf, limits: Limits, clock: Time, later: Time)
    requires WithinLimits(shelf, limits, clock) && clock <= later
    ensures WithinLimits(shelf, limits, later)
  {
  }
}
