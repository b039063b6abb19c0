/** Which entries expire, and when an entry survives its own registration. */
module FreshEntries {
  import opened Collections
  import opened Outcomes
  import opened SessionStore

  // ----- expiry -----

  /** Aging keeps, in order, exactly the entries on its side of the cutoff. */
  lemma {:induction false} AgedPicked(reg: Registry, cutoff: Time, stale: bool) returns (at: seq<nat>)
    ensures Picked(reg, at, Aged(reg, cutoff, stale))
    ensures forall i: nat :: i in at <==> i < |reg| && (if stale then reg[i].created < cutoff else reg[i].created >= cutoff)
    decreases |reg|
  {
    at := [];
    if reg != [] {
      var n := |reg| - 1;
      var front, last := reg[..n], reg[n];
      at := AgedPicked(front, cutoff, stale);
      PickedSnoc(front, at, Aged(front, cutoff, stale), last);
      assert reg == front + [last];
      assert forall i :: 0 <= i < n ==> reg[i] == front[i];
      if (last.created < cutoff) == stale {
        at := at + [n];
      }
    }
  }

  predicate TooOld(x: Item, ttl: Option<nat>, now: Time) {
    ttl.Some? && now - x.created > ttl.value
  }

  /** Exactly the entries older than the time to live leave; the others keep their
      order. Without a time to live none does. */
  lemma ExpiredIff(shelf: Shelf, ttl: Option<nat>, now: Time) returns (clips: seq<nat>, thumbnails: seq<nat>)
    ensures var r := Expired(shelf, ttl, now);
            && Picked(shelf.clips, clips, r.shelf.clips) && Picked(shelf.thumbnails, thumbnails, r.shelf.thumbnails)
            && forall x :: x in r.gone <==> (x in shelf.clips || x in shelf.thumbnails) && TooOld(x, ttl, now)
    ensures forall i: nat :: i in clips <==> i < |shelf.clips| && !TooOld(shelf.clips[i], ttl, now)
    ensures forall i: nat :: i in thumbnails <==> i < |shelf.thumbnails| && !TooOld(shelf.thumbnails[i], ttl, now)
  {
    if ttl.None? {
      clips := Everywhere(|shelf.clips|);
      thumbnails := Everywhere(|shelf.thumbnails|);
    } else {
      var cutoff := now - ttl.value;
      clips := AgedPicked(shelf.clips, cutoff, false);
      thumbnails := AgedPicked(shelf.thumbnails, cutoff, false);
      AgedMembers(shelf.clips, cutoff);
      AgedMembers(shelf.thumbnails, cutoff);
    }
  }

  lemma Everywhere(n: nat) returns (at: seq<nat>)
    ensures Increasing(at) && |at| == n && (forall k :: 0 <= k < n ==> at[k] == k) && forall i: nat :: i in at <==> i < n
  {
    at := seq(n, k => k);
    forall i: nat
      ensures i in at <==> i < n
    {
      assert i < n ==> at[i] == i;
    }
  }

  lemma AgedMembers(reg: Registry, cutoff: Time)
    ensures forall x :: x in Aged(reg, cutoff, true) <==> x in reg && x.created < cutoff
  {
    var at := AgedPicked(reg, cutoff, true);
    var stale := Aged(reg, cutoff, true);
    forall x
      ensures x in stale <==> x in reg && x.created < cutoff
    {
      if x in stale {
        var k :| 0 <= k < |stale| && stale[k] == x;
        assert at[k] in at;
      }
      if x in reg && x.created < cutoff {
        var i :| 0 <= i < |reg| && reg[i] == x;
        assert i in at;
        var k :| 0 <= k < |at| && at[k] == i;
        assert stale[k] == x;
      }
    }
  }

  // ----- the newcomer among the old -----

  /** The bytes of a session's entries stamped with this time. */
  function BytesAt(reg: Registry, s: Session, t: Time): nat {
    if reg == [] then 0
    else
      var last := reg[|reg| - 1];
      BytesAt(reg[..|reg| - 1], s, t) + if last.session == Some(s) && last.created == t then last.size else 0
  }

  predicate NoYounger(reg: Registry, t: Time) {
    forall i | 0 <= i < |reg| :: reg[i].created <= t
  }

  /** A sorted list ends with its entries of the latest time. */
  lemma {:induction false} SplitLatest(reg: Registry, t: Time) returns (older: Registry, latest: Registry)
    requires Sorted(reg) && NoYounger(reg, t)
    ensures reg == older + latest && (forall x :: x in older ==> x.created < t) && forall x :: x in latest ==> x.created == t
    decreases |reg|
  {
    older, latest := reg, [];
    assert reg + [] == reg;
    if reg != [] {
      var n := |reg| - 1;
      if reg[n].created == t {
        older, latest := SplitLatest(reg[..n], t);
        latest := latest + [reg[n]];
        assert reg == reg[..n] + [reg[n]];
      } else {
        assert forall i :: 0 <= i < |reg| ==> reg[i].created <= reg[n].created;
      }
    }
  }

  /** Merging puts a newest entry of the first list before those of the second list
      with its time, and after everything else. */
  lemma {:induction false} MergeNewest(a: Registry, x: Item, older: Registry, latest: Registry) returns (before: Registry)
    requires NoYounger(a, x.created) && (forall y :: y in older ==> y.created < x.created)
    requires forall y :: y in latest ==> y.created == x.created
    ensures Merge(a + [x], older + latest) == before + ([x] + latest)
    ensures forall y :: y in before ==> y in a || y in older
    decreases |a| + |older|
  {
    if a == [] && older == [] {
      before := [];
      assert [] + [x] == [x] && [x][1..] == [] && [] + latest == latest;
      assert [] + ([x] + latest) == [x] + latest;
    } else if a != [] && (older + latest == [] || a[0].created <= (older + latest)[0].created) {
      before := MergeNewest(a[1..], x, older, latest);
      assert (a + [x])[1..] == a[1..] + [x];
      assert [a[0]] + (before + ([x] + latest)) == ([a[0]] + before) + ([x] + latest);
      if older + latest == [] {
        MergeNothing(a + [x]);
        MergeNothing(a[1..] + [x]);
        assert a + [x] == [a[0]] + (a[1..] + [x]);
      }
      before := [a[0]] + before;
    } else {
      assert older != [];
      before := MergeNewest(a, x, older[1..], latest);
      assert (older + latest)[1..] == older[1..] + latest;
      assert [older[0]] + (before + ([x] + latest)) == ([older[0]] + before) + ([x] + latest);
      before := [older[0]] + before;
    }
  }

  lemma MergeNothing(a: Registry)
    ensures Merge(a, []) == a
  {
  }

  /** A newest entry of the second list comes last. */
  lemma {:induction false} MergeLast(a: Registry, b: Registry, x: Item)
    requires NoYounger(a, x.created) && NoYounger(b, x.created)
    ensures Merge(a, b + [x]) == Merge(a, b) + [x]
    decreases |a| + |b|
  {
    if a != [] {
      if b == [] {
        assert [] + [x] == [x];
        MergeLast(a[1..], b, x);
        MergeNothing(a);
        MergeNothing(a[1..]);
        assert [a[0]] + (a[1..] + [x]) == a + [x];
      } else if a[0].created <= b[0].created {
        MergeLast(a[1..], b, x);
        assert [a[0]] + (Merge(a[1..], b) + [x]) == ([a[0]] + Merge(a[1..], b)) + [x];
      } else {
        MergeLast(a, b[1..], x);
        assert (b + [x])[1..] == b[1..] + [x];
        assert [b[0]] + (Merge(a, b[1..]) + [x]) == ([b[0]] + Merge(a, b[1..])) + [x];
      }
    }
  }

  // ----- bytes of one time -----

  lemma BytesSnoc(reg: Registry, last: Item, s: Session, t: Time)
    ensures BytesAt(reg + [last], s, t)
         == BytesAt(reg, s, t) + if last.session == Some(s) && last.created == t then last.size else 0
  {
    assert (reg + [last])[..|reg|] == reg;
  }

  lemma {:induction false} BytesSelected(reg: Registry, s: Session, t: Time)
    ensures BytesAt(Select(reg, Of(s), true), s, t) == BytesAt(reg, s, t)
    decreases |reg|
  {
    if reg != [] {
      var n := |reg| - 1;
      var front, last := reg[..n], reg[n];
      BytesSelected(front, s, t);
      assert reg == front + [last];
      SelectSnoc(front, last, Of(s));
      BytesSnoc(front, last, s, t);
      BytesSnoc(Select(front, Of(s), true), last, s, t);
      assert Select(front, Of(s), true) + [] == Select(front, Of(s), true);
    }
  }

  lemma SelectSnoc(reg: Registry, last: Item, scope: Scope)
    ensures Select(reg + [last], scope, true) == Select(reg, scope, true) + if InScope(last, scope) then [last] else []
  {
    SelectConcat(reg, [last], scope, true);
    assert [last] + [] == [last] && [last][1..] == [];
    SelectCons(last, [], scope, true);
    assert Select([], scope, true) == [];
  }

  lemma {:induction false} BytesAged(reg: Registry, s: Session, t: Time, cutoff: Time)
    requires t >= cutoff
    ensures BytesAt(Aged(reg, cutoff, false), s, t) == BytesAt(reg, s, t)
    decreases |reg|
  {
    if reg != [] {
      var n := |reg| - 1;
      BytesAged(reg[..n], s, t, cutoff);
      BytesSnoc(Aged(reg[..n], cutoff, false), reg[n], s, t);
    }
  }

  /** Of a session's own list, only the entries of the latest time count. */
  lemma {:induction false} BytesLatest(older: Registry, latest: Registry, s: Session, t: Time)
    requires (forall x :: x in older ==> x.created < t)
    requires forall x :: x in latest ==> x.created == t && x.session == Some(s)
    ensures BytesAt(older + latest, s, t) == Total(latest)
    decreases |older| + |latest|
  {
    if latest != [] {
      var n := |latest| - 1;
      BytesLatest(older, latest[..n], s, t);
      assert older + latest == (older + latest[..n]) + [latest[n]];
      BytesSnoc(older + latest[..n], latest[n], s, t);
      assert latest == latest[..n] + [latest[n]] && latest[n] in latest;
      TotalConcat(latest[..n], [latest[n]]);
      assert Total([latest[n]]) == latest[n].size;
    } else if older != [] {
      var n := |older| - 1;
      assert older + latest == older && older[..n] + latest == older[..n] && older[n] in older;
      BytesLatest(older[..n], latest, s, t);
    } else {
      assert older + latest == [];
    }
  }

  // ----- surviving the session's cap -----

  lemma InMerged(shelf: Shelf, s: Session, x: Item)
    requires x.session == Some(s)
    ensures x in Merged(shelf, Of(s)) <==> x in shelf.clips || x in shelf.thumbnails
  {
    var a, b := Select(shelf.clips, Of(s), true), Select(shelf.thumbnails, Of(s), true);
    MergeConserves(a, b);
    SelectMembers(shelf.clips, Of(s), true);
    SelectMembers(shelf.thumbnails, Of(s), true);
    assert x in Merge(a, b) <==> x in multiset(Merge(a, b));
  }

  lemma {:induction false} TotalDrops(m: Registry, i: nat, j: nat)
    requires i <= j <= |m|
    ensures Total(m[j..]) <= Total(m[i..])
    decreases j - i
  {
    if i < j {
      TotalDrops(m, i + 1, j);
      assert m[i..][1..] == m[i + 1..];
    }
  }

  lemma StaysInLine(m: Registry, before: Registry, x: Item, behind: Registry, g: nat)
    requires m == before + ([x] + behind) && x !in behind && g <= |m|
    ensures x in m[g..] <==> g <= |before|
  {
    var q := |before|;
    if g <= q {
      assert m[g..][q - g] == x;
    } else {
      assert m[g..] == behind[g - q - 1..];
    }
  }

  /** In line for eviction, an entry stays exactly when it and all behind it fit. */
  lemma SurvivesEvict(shelf: Shelf, s: Session, cap: nat, before: Registry, x: Item, behind: Registry)
    requires Merged(shelf, Of(s)) == before + ([x] + behind)
    requires x.session == Some(s) && x !in before && x !in behind
    ensures var r := Evict(shelf, Of(s), cap).shelf;
            x in r.clips || x in r.thumbnails <==> x.size + Total(behind) <= cap
  {
    var m, r, q := Merged(shelf, Of(s)), Evict(shelf, Of(s), cap), |before|;
    EvictTakesOldestPrefix(shelf, Of(s), cap);
    InMerged(r.shelf, s, x);
    TotalIsMerged(r.shelf, Of(s));
    hide Evict, Merged, ShelfTotal;
    var g := |r.gone|;
    StaysInLine(m, before, x, behind, g);
    assert m[q..] == [x] + behind && ([x] + behind)[1..] == behind;
    if g <= q {
      TotalDrops(m, g, q);
    } else {
      TotalDrops(m, q, g - 1);
    }
  }

  // ----- surviving one's own registration -----

  /** The bytes that go after the newcomer: a clip stands before the thumbnails of
      its own time. */
  function BytesBehind(shelf: Shelf, item: Item, s: Session, clip: bool): nat {
    if clip then BytesAt(shelf.thumbnails, s, item.created) else 0
  }

  lemma NewClipInLine(shelf: Shelf, earlier: Registry, item: Item, s: Session)
    requires shelf.clips == earlier + [item] && item.session == Some(s) && NoYounger(earlier, item.created)
    requires Sorted(shelf.thumbnails) && NoYounger(shelf.thumbnails, item.created)
    requires item !in earlier && item !in shelf.thumbnails
    ensures exists before, behind ::
              && Merged(shelf, Of(s)) == before + ([item] + behind) && item !in before && item !in behind
              && Total(behind) == BytesAt(shelf.thumbnails, s, item.created)
  {
    var a, b, t := Select(earlier, Of(s), true), Select(shelf.thumbnails, Of(s), true), item.created;
    SelectSnoc(earlier, item, Of(s));
    SelectMembers(earlier, Of(s), true);
    SelectMembers(shelf.thumbnails, Of(s), true);
    SelectSorted(shelf.thumbnails, Of(s), true);
    BytesSelected(shelf.thumbnails, s, t);
    hide Select, Merge, Sorted, BytesAt;
    assert NoYounger(b, t) by {
      assert forall i :: 0 <= i < |b| ==> b[i] in b;
    }
    assert NoYounger(a, t) by {
      assert forall i :: 0 <= i < |a| ==> a[i] in a;
    }
    var older, latest := SplitLatest(b, t);
    var before := MergeNewest(a, item, older, latest);
    forall x | x in latest
      ensures x.session == Some(s)
    {
      assert x in b;
    }
    BytesLatest(older, latest, s, t);
    assert Merged(shelf, Of(s)) == before + ([item] + latest);
  }

  lemma NewThumbnailInLine(shelf: Shelf, earlier: Registry, item: Item, s: Session)
    requires shelf.thumbnails == earlier + [item] && item.session == Some(s) && NoYounger(earlier, item.created)
    requires NoYounger(shelf.clips, item.created) && item !in earlier && item !in shelf.clips
    ensures exists before ::
              Merged(shelf, Of(s)) == before + ([item] + []) && item !in before
  {
    var a, b := Select(shelf.clips, Of(s), true), Select(earlier, Of(s), true);
    SelectSnoc(earlier, item, Of(s));
    SelectMembers(earlier, Of(s), true);
    SelectMembers(shelf.clips, Of(s), true);
    MergeConserves(a, b);
    hide Select, Merge;
    assert NoYounger(a, item.created) by {
      assert forall i :: 0 <= i < |a| ==> a[i] in a;
    }
    assert NoYounger(b, item.created) by {
      assert forall i :: 0 <= i < |b| ==> b[i] in b;
    }
    MergeLast(a, b, item);
    assert item in Merge(a, b) <==> item in multiset(Merge(a, b));
    assert Merged(shelf, Of(s)) == Merge(a, b) + ([item] + []);
  }

  /** Past expiry and the count cap, the session's cap decides. */
  lemma NewcomerCapped(shelf: Shelf, limits: Limits, earlier: Registry, item: Item, clip: bool)
    requires (if clip then shelf.clips else shelf.thumbnails) == earlier + [item]
    requires NoYounger(earlier, item.created) && NoYounger(if clip then shelf.thumbnails else shelf.clips, item.created)
    requires item !in earlier && item !in (if clip then shelf.thumbnails else shelf.clips) && Sorted(shelf.thumbnails)
    ensures
      var r := SessionCapped(shelf, limits, item.session).shelf;
      (item in r.clips || item in r.thumbnails) <==>
      item.session.None? || item.size + BytesBehind(shelf, item, item.session.value, clip) <= limits.maxBytes
  {
    assert item in earlier + [item];
    hide Merged, Evict, BytesAt, Sorted, NoYounger;
    if item.session.Some? {
      var s := item.session.value;
      if clip {
        NewClipInLine(shelf, earlier, item, s);
        var before, behind :|
          && Merged(shelf, Of(s)) == before + ([item] + behind) && item !in before && item !in behind
          && Total(behind) == BytesAt(shelf.thumbnails, s, item.created);
        SurvivesEvict(shelf, s, limits.maxBytes, before, item, behind);
      } else {
        NewThumbnailInLine(shelf, earlier, item, s);
        var before :| Merged(shelf, Of(s)) == before + ([item] + []) && item !in before;
        TotalOfNothing();
        SurvivesEvict(shelf, s, limits.maxBytes, before, item, []);
      }
    }
  }

  lemma ExpiredNewcomer(shelf: Shelf, ttl: Option<nat>, item: Item, clip: bool, now: Time)
    requires Sorted(shelf.clips) && Sorted(shelf.thumbnails) && item !in shelf.clips && item !in shelf.thumbnails
    ensures
      var r := Expired(Added(shelf, item, clip), ttl, now);
      var earlier := Expired(shelf, ttl, now).shelf;
      && r.shelf == (if TooOld(item, ttl, now) then earlier else Added(earlier, item, clip))
      && (TooOld(item, ttl, now) ==> item in r.gone)
  {
    if ttl.Some? {
      var cutoff := now - ttl.value;
      AgedSnoc(shelf.clips, item, cutoff);
      AgedSnoc(shelf.thumbnails, item, cutoff);
    }
  }

  lemma AgedSnoc(reg: Registry, last: Item, cutoff: Time)
    ensures Aged(reg + [last], cutoff, false) == Aged(reg, cutoff, false) + if last.created >= cutoff then [last] else []
    ensures last.created < cutoff ==> last in Aged(reg + [last], cutoff, true)
  {
    assert (reg + [last])[..|reg|] == reg;
    assert Aged(reg, cutoff, false) + [] == Aged(reg, cutoff, false);
  }

  /** What expiry leaves of a shelf within its limits. */
  lemma ExpiredLeaves(shelf: Shelf, ttl: Option<nat>, now: Time, t: Time)
    requires Sorted(shelf.clips) && Sorted(shelf.thumbnails) && NoYounger(shelf.clips, t) && NoYounger(shelf.thumbnails, t)
    ensures
      var r := Expired(shelf, ttl, now).shelf;
      && Sorted(r.clips) && Sorted(r.thumbnails) && NoYounger(r.clips, t) && NoYounger(r.thumbnails, t)
      && (forall x :: x in r.clips ==> x in shelf.clips) && forall x :: x in r.thumbnails ==> x in shelf.thumbnails
    ensures
      var r := Expired(shelf, ttl, now).shelf;
      forall s :: (ttl.None? || now - t <= ttl.value) ==> BytesAt(r.thumbnails, s, t) == BytesAt(shelf.thumbnails, s, t)
  {
    if ttl.Some? {
      var cutoff := now - ttl.value;
      AgedSorted(shelf.clips, cutoff);
      AgedSorted(shelf.thumbnails, cutoff);
      MembersNoYounger(Aged(shelf.clips, cutoff, false), shelf.clips, t);
      MembersNoYounger(Aged(shelf.thumbnails, cutoff, false), shelf.thumbnails, t);
      forall s | t >= cutoff
        ensures BytesAt(Aged(shelf.thumbnails, cutoff, false), s, t) == BytesAt(shelf.thumbnails, s, t)
      {
        BytesAged(shelf.thumbnails, s, t, cutoff);
      }
    }
  }

  lemma MembersNoYounger(some: Registry, all: Registry, t: Time)
    requires NoYounger(all, t) && forall x :: x in some ==> x in all
    ensures NoYounger(some, t)
  {
    assert forall i :: 0 <= i < |some| ==> some[i] in all;
  }

  /** An entry is there once: it is evicted or it stays. */
  lemma GoneForGood(shelf: Shelf, limits: Limits, item: Item, clip: bool, now: Time)
    requires item !in shelf.clips && item !in shelf.thumbnails
    ensures var r := Registered(shelf, limits, item, clip, now);
            item in r.gone ==> item !in r.shelf.clips && item !in r.shelf.thumbnails
  {
    RegisteredConserves(shelf, limits, item, clip, now);
    hide Registered;
    var r := Registered(shelf, limits, item, clip, now);
    assert Bag(shelf)[item] == 0;
    assert (Bag(r.shelf) + multiset(r.gone))[item] == 1;
    assert item in r.gone ==> item in multiset(r.gone);
    assert item in r.shelf.clips ==> item in multiset(r.shelf.clips);
    assert item in r.shelf.thumbnails ==> item in multiset(r.shelf.thumbnails);
  }

  predicate FitsItsSession(shelf: Shelf, limits: Limits, item: Item, clip: bool) {
    item.session.None? || item.size + BytesBehind(shelf, item, item.session.value, clip) <= limits.maxBytes
  }

  lemma NewcomerStays(shelf: Shelf, limits: Limits, item: Item, clip: bool, now: Time)
    requires Sorted(shelf.clips) && Sorted(shelf.thumbnails) && item !in shelf.clips && item !in shelf.thumbnails
    requires NoYounger(shelf.clips, item.created) && NoYounger(shelf.thumbnails, item.created)
    requires !TooOld(item, limits.ttl, now)
    ensures
      var r := Registered(shelf, limits, item, clip, now);
      if (if clip then limits.maxClips else limits.maxThumbnails) == 0 then item in r.gone
      else (item in r.shelf.clips || item in r.shelf.thumbnails) <==> FitsItsSession(shelf, limits, item, clip)
  {
    ExpiredNewcomer(shelf, limits.ttl, item, clip, now);
    ExpiredLeaves(shelf, limits.ttl, now, item.created);
    var earlier := Expired(shelf, limits.ttl, now).shelf;
    hide Expired, SessionCapped, CountCapped, BytesAt, Sorted;
    CountedStays(earlier, limits, item, clip);
  }

  /** The same when nothing had to expire. */
  lemma CountedStays(shelf: Shelf, limits: Limits, item: Item, clip: bool)
    requires Sorted(shelf.clips) && Sorted(shelf.thumbnails) && item !in shelf.clips && item !in shelf.thumbnails
    requires NoYounger(shelf.clips, item.created) && NoYounger(shelf.thumbnails, item.created)
    ensures
      var counted := CountCapped(Added(shelf, item, clip), limits, clip);
      var r := SessionCapped(counted.shelf, limits, item.session).shelf;
      if (if clip then limits.maxClips else limits.maxThumbnails) == 0 then item in counted.gone
      else (item in r.clips || item in r.thumbnails) <==> FitsItsSession(shelf, limits, item, clip)
  {
    var cap := if clip then limits.maxClips else limits.maxThumbnails;
    var reg := if clip then shelf.clips else shelf.thumbnails;
    var counted := CountCapped(Added(shelf, item, clip), limits, clip);
    hide SessionCapped, BytesAt;
    if cap == 0 {
      assert counted.gone == reg + [item];
    } else {
      var front := TrimmedSnoc(reg, item, cap);
      MembersNoYounger(front, reg, item.created);
      SortedCounted(shelf, limits, item, clip);
      NewcomerCapped(counted.shelf, limits, front, item, clip);
    }
  }

  lemma SortedCounted(shelf: Shelf, limits: Limits, item: Item, clip: bool)
    requires Sorted(shelf.thumbnails) && NoYounger(shelf.thumbnails, item.created)
    ensures Sorted(CountCapped(Added(shelf, item, clip), limits, clip).shelf.thumbnails)
  {
    CountCappedOnlyRemoves(Added(shelf, item, clip), limits, clip, Everyone);
  }

  lemma TrimmedSnoc(reg: Registry, last: Item, cap: nat) returns (front: Registry)
    requires cap > 0
    ensures Trimmed(reg + [last], cap) == front + [last] && forall x :: x in front ==> x in reg
  {
    var all := Trimmed(reg + [last], cap);
    front := all[..|all| - 1];
    assert forall i :: 0 <= i < |front| ==> front[i] in reg;
  }

  /** An entry survives its own registration exactly when it has not expired by then,
      its registry may hold any, and it fits its session's bytes together with the
      thumbnails stamped like a clip, which stay longer than the clip does. */
  lemma FreshSurvivesIff(shelf: Shelf, limits: Limits, item: Item, clip: bool, now: Time, clock: Time)
    requires WithinLimits(shelf, limits, clock) && clock <= item.created <= now
    requires item !in shelf.clips && item !in shelf.thumbnails
    ensures
      var r := Registered(shelf, limits, item, clip, now).shelf;
      (item in r.clips || item in r.thumbnails) <==>
      && !TooOld(item, limits.ttl, now) && (if clip then limits.maxClips else limits.maxThumbnails) > 0
      && FitsItsSession(shelf, limits, item, clip)
  {
    GoneForGood(shelf, limits, item, clip, now);
    ExpiredNewcomer(shelf, limits.ttl, item, clip, now);
    if !TooOld(item, limits.ttl, now) {
      NewcomerStays(shelf, limits, item, clip, now);
    }
    hide Expired, CountCapped, SessionCapped, FitsItsSession, WithinLimits, TooOld;
  }
}
