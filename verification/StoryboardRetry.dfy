/** Retrying a scene stores a new scene at revision 0 without the compare-and-swap.
    Which of the storyboard's guarantees survive a retry, and when. */
module StoryboardRetry {
  import opened Outcomes
  import opened StoryboardOrder
  import opened Storyboard

  // ----- the guarantees of a whole run -----

  /** Id and revision determine content. */
  ghost predicate Consistent(boards: seq<Board>) {
    forall i, j, id :: 0 <= i < |boards| && 0 <= j < |boards| ==> SameAtSameRevision(boards[i], boards[j], id)
  }

  ghost predicate SameAtSameRevision(a: Board, b: Board, id: Id) {
    id in a.scenes && id in b.scenes && a.scenes[id].revision == b.scenes[id].revision ==>
      Content(a.scenes[id]) == Content(b.scenes[id])
  }

  /** Nothing is ready to render with a mismatch nobody acknowledged. */
  ghost predicate Acknowledged(world: World, b: Board) {
    forall id :: id in b.scenes && b.scenes[id].RenderReady() ==> !Unacknowledged(world, b.scenes[id])
  }

  /** Every clip handed out shows what the scene holds. */
  ghost predicate HandsOutCurrent(world: World, b: Board, e: Event) {
    HandsOut(b, e) ==> ClipIsCurrent(Next(world, b, e), e.id)
  }

  ghost predicate Sound(world: World, boards: seq<Board>, events: seq<Event>)
    requires |boards| == |events| + 1
  {
    && Consistent(boards)
    && (forall k :: 0 <= k < |boards| ==> Acknowledged(world, boards[k]) && NoOrphans(boards[k]))
    && forall k :: 0 <= k < |events| ==> HandsOutCurrent(world, boards[k], events[k])
  }

  lemma GuardedRunsAreSound(world: World, boards: seq<Board>, events: seq<Event>)
    requires GuardedRun(world, boards, events)
    ensures Sound(world, boards, events)
  {
    hide GuardedRun, Content, ClipIsCurrent, HandsOut, Next, Unacknowledged;
    assert |boards| == |events| + 1 by {
      LengthOf(world, boards, events);
    }
    forall i, j, id | 0 <= i < |boards| && 0 <= j < |boards|
      ensures SameAtSameRevision(boards[i], boards[j], id)
    {
      if id in boards[i].scenes && id in boards[j].scenes && boards[i].scenes[id].revision == boards[j].scenes[id].revision {
        RevisionDeterminesContent(world, boards, events, i, j, id);
      }
    }
    forall k | 0 <= k < |boards|
      ensures Acknowledged(world, boards[k]) && NoOrphans(boards[k])
    {
      forall id | id in boards[k].scenes && boards[k].scenes[id].RenderReady()
        ensures !Unacknowledged(world, boards[k].scenes[id])
      {
        ReadyMeansAcknowledged(world, boards, events, k, id);
      }
      RunKeeps(world, boards, events, k);
    }
    forall k | 0 <= k < |events|
      ensures HandsOutCurrent(world, boards[k], events[k])
    {
      if HandsOut(boards[k], events[k]) {
        HandedOutClipIsCurrent(world, boards, events, k);
        NextOf(world, boards, events, k);
      }
    }
  }

  lemma LengthOf(world: World, boards: seq<Board>, events: seq<Event>)
    requires GuardedRun(world, boards, events)
    ensures |boards| == |events| + 1
  {
  }

  lemma NextOf(world: World, boards: seq<Board>, events: seq<Event>, k: nat)
    requires GuardedRun(world, boards, events) && k < |events|
    ensures k + 1 < |boards| && boards[k + 1] == Next(world, boards[k], events[k])
  {
  }

  // ----- runs that go on from a retry -----

  /** A run that does `events`, then the retry `e`, then anything in which later
      retries store what is there. */
  ghost predicate Continues(world: World, events: seq<Event>, e: Event, boards: seq<Board>, all: seq<Event>) {
    && Run(world, boards, all)
    && events + [e] <= all
    && forall k :: 0 <= k < |all| && k != |events| ==> Guarded(boards[k], all[k])
  }

  lemma RunIsItsEvents(world: World, a: seq<Board>, b: seq<Board>, events: seq<Event>, all: seq<Event>, k: nat)
    requires Run(world, a, events) && Run(world, b, all) && events <= all && k <= |events|
    ensures a[k] == b[k]
  {
    hide Next, Enabled;
    if k > 0 {
      RunIsItsEvents(world, a, b, events, all, k - 1);
      assert a[k] == Next(world, a[k - 1], events[k - 1]) && b[k] == Next(world, b[k - 1], all[k - 1]);
    }
  }

  lemma Extend(world: World, events: seq<Event>, e: Event, boards: seq<Board>, all: seq<Event>, x: Event)
    requires Continues(world, events, e, boards, all)
    requires Enabled(boards[|all|], x) && !x.Retry?
    ensures Continues(world, events, e, boards + [Next(world, boards[|all|], x)], all + [x])
  {
    hide Next, Enabled;
    var bs, es := boards + [Next(world, boards[|all|], x)], all + [x];
    forall k | 0 <= k < |es|
      ensures Enabled(bs[k], es[k]) && bs[k + 1] == Next(world, bs[k], es[k])
    {
      assert k < |all| ==> es[k] == all[k] && bs[k] == boards[k] && bs[k + 1] == boards[k + 1];
    }
    forall k | 0 <= k < |es| && k != |events|
      ensures Guarded(bs[k], es[k])
    {
      assert k < |all| ==> es[k] == all[k] && bs[k] == boards[k];
    }
  }

  // ----- every revision was passed through -----

  lemma RevisionSteps(world: World, b: Board, e: Event, id: Id)
    requires Enabled(b, e) && Guarded(b, e)
    requires id in Next(world, b, e).scenes && Next(world, b, e).scenes[id].revision > 0
    ensures id in b.scenes && Next(world, b, e).scenes[id].revision <= b.scenes[id].revision + 1
  {
    hide CombineAllowed, Chained, Filter, Unchained, ReadyIds, Content;
    if e.Retry? {
      RetriedScene(world, b, e);
    } else if IsRequest(e) {
      RequestSteps(world, b, e, id);
    }
  }

  lemma RequestSteps(world: World, b: Board, e: Event, id: Id)
    requires IsRequest(e) && id in Next(world, b, e).scenes
    ensures id in b.scenes && Next(world, b, e).scenes[id].revision <= b.scenes[id].revision + 1
  {
  }

  /** A scene beyond revision 0 was once at revision 1. */
  lemma {:induction false} PassedOne(world: World, boards: seq<Board>, events: seq<Event>, k: nat, id: Id)
    returns (i: nat)
    requires GuardedRun(world, boards, events) && k < |boards|
    requires id in boards[k].scenes && boards[k].scenes[id].revision > 0
    ensures i <= k && id in boards[i].scenes && boards[i].scenes[id].revision == 1
  {
    hide Next, Enabled, Guarded;
    i := k;
    if boards[k].scenes[id].revision > 1 {
      RevisionSteps(world, boards[k - 1], events[k - 1], id);
      i := PassedOne(world, boards, events, k - 1, id);
    }
  }

  // ----- a retry that changes something -----

  /** A way from a fresh scene at revision 0 to one at revision 1 with a status
      other than the given one. */
  function Onward(world: World, id: Id, scene: Scene, avoid: Status): Event {
    if !avoid.Rejected? then Reject(id, scene)
    else if Mismatch(world, scene) then Acknowledge(id, scene)
    else Approve(id, scene)
  }

  lemma OnwardDiffers(world: World, b: Board, id: Id, avoid: Status)
    requires id in b.scenes && id in b.order && (id, b.scenes[id]) in b.captured
    requires b.scenes[id].revision == 0 && !b.scenes[id].status.Rejected?
    ensures
      var x := Onward(world, id, b.scenes[id], avoid);
      var n := Next(world, b, x);
      && Enabled(b, x) && !x.Retry?
      && id in n.scenes && n.scenes[id].revision == 1 && n.scenes[id].status != avoid
  {
  }

  /** Bringing a scene back onto the order, by taking apart the chain it is in. */
  lemma BackOnOrder(world: World, b: Board, id: Id, c: Id)
    requires OrderInv(b) && c in b.members && id in b.members[c]
    ensures
      var n := Next(world, b, Ungroup(c));
      id in b.scenes && id in n.order && id in n.scenes && n.scenes[id] == b.scenes[id]
  {
    hide Unchained, Expand;
    assert c in b.order && id !in b.members;
    UnchainedMembership(b.order, c, b.members[c], id);
  }

  lemma ReadCaptures(world: World, b: Board, id: Id)
    requires id in b.scenes && id in b.order
    ensures
      var n := Next(world, b, Read(id));
      n.scenes == b.scenes && n.order == b.order && (id, b.scenes[id]) in n.captured
  {
  }

  lemma RetriedKeepsOrder(world: World, b: Board, e: Event)
    requires OrderInv(b) && e.Retry? && Enabled(b, e) && e.id in b.scenes && b.scenes[e.id].candidate.Some?
    ensures OrderInv(Next(world, b, e))
  {
    hide WellOrdered, Content;
  }

  /** A scene that has moved on: after the retry some writes reach revision 1 again
      with other content. */
  lemma MovedOnBreaks(world: World, boards: seq<Board>, events: seq<Event>, e: Event)
    returns (bs: seq<Board>, es: seq<Event>)
    requires GuardedRun(world, boards, events) && e.Retry? && Enabled(boards[|events|], e)
    requires e.id in boards[|events|].scenes && boards[|events|].scenes[e.id].revision > 0
    ensures Continues(world, events, e, bs, es) && !Consistent(bs)
  {
    hide Next, Enabled, OrderInv, Content, Guarded;
    var b, id := boards[|events|], e.id;
    RunKeeps(world, boards, events, |events|);
    CandidateStays(b, e);
    RetriedKeepsOrder(world, b, e);
    var i := PassedOne(world, boards, events, |events|, id);
    bs, es := AfterRetry(world, boards, events, e);
    RetriedScene(world, b, e);
    assert Shown(b, id);
    if id !in b.order {
      var c :| c in b.members && id in b.members[c];
      BackOnOrder(world, bs[|es|], id, c);
      NotARetry(bs[|es|], Ungroup(c));
      Extend(world, events, e, bs, es, Ungroup(c));
      bs, es := bs + [Next(world, bs[|es|], Ungroup(c))], es + [Ungroup(c)];
    }
    NotARetry(bs[|es|], Read(id));
    ReadCaptures(world, bs[|es|], id);
    Extend(world, events, e, bs, es, Read(id));
    bs, es := bs + [Next(world, bs[|es|], Read(id))], es + [Read(id)];
    var last := bs[|es|];
    var avoid := boards[i].scenes[id].status;
    OnwardDiffers(world, last, id, avoid);
    var x := Onward(world, id, last.scenes[id], avoid);
    Extend(world, events, e, bs, es, x);
    bs, es := bs + [Next(world, last, x)], es + [x];
    RunIsItsEvents(world, boards, bs, events, es, i);
    DifferentStatus(bs[i], bs[|es|], id);
    assert !SameAtSameRevision(bs[i], bs[|es|], id);
  }

  lemma DifferentStatus(a: Board, b: Board, id: Id)
    requires id in a.scenes && id in b.scenes && a.scenes[id].revision == b.scenes[id].revision
    requires a.scenes[id].status != b.scenes[id].status
    ensures !SameAtSameRevision(a, b, id)
  {
    if Content(a.scenes[id]) == Content(b.scenes[id]) {
      SameContentSameFields(a.scenes[id], b.scenes[id]);
    }
  }

  lemma NotARetry(b: Board, e: Event)
    requires e.Ungroup? || e.Read?
    ensures Enabled(b, e)
  {
  }

  lemma CandidateStays(b: Board, e: Event)
    requires CapturedInv(b) && e.Retry? && Enabled(b, e) && e.id in b.scenes
    ensures b.scenes[e.id].candidate.Some?
  {
    assert Tracks(e.base, b.scenes[e.id]);
  }

  lemma RetriedScene(world: World, b: Board, e: Event)
    requires e.Retry? && Enabled(b, e)
    ensures
      var n := Next(world, b, e);
      && n.order == b.order && n.members == b.members && e.id in n.scenes
      && n.scenes.Keys == b.scenes.Keys + {e.id}
      && n.scenes[e.id].revision == 0 && !n.scenes[e.id].status.Rejected?
      && Content(n.scenes[e.id]) == Content(e.assembled)
  {
  }

  /** The run that ends with the retry itself. */
  lemma AfterRetry(world: World, boards: seq<Board>, events: seq<Event>, e: Event)
    returns (bs: seq<Board>, es: seq<Event>)
    requires GuardedRun(world, boards, events) && e.Retry? && Enabled(boards[|events|], e)
    ensures bs == boards + [Next(world, boards[|events|], e)] && es == events + [e]
    ensures Continues(world, events, e, bs, es)
  {
    hide Next, Enabled, Guarded;
    bs, es := boards + [Next(world, boards[|events|], e)], events + [e];
    forall k | 0 <= k < |es|
      ensures Enabled(bs[k], es[k]) && bs[k + 1] == Next(world, bs[k], es[k])
    {
      assert k < |events| ==> es[k] == events[k] && bs[k] == boards[k] && bs[k + 1] == boards[k + 1];
    }
    forall k | 0 <= k < |es| && k != |events|
      ensures Guarded(bs[k], es[k])
    {
      assert es[k] == events[k] && bs[k] == boards[k];
    }
  }

  /** A retry that changes what is stored breaks a guarantee: at once, or after a
      few more steps. */
  lemma UnguardedRetryBreaks(world: World, boards: seq<Board>, events: seq<Event>, e: Event)
    returns (bs: seq<Board>, es: seq<Event>)
    requires GuardedRun(world, boards, events) && e.Retry? && Enabled(boards[|events|], e)
    requires !Guarded(boards[|events|], e)
    ensures Continues(world, events, e, bs, es) && !Sound(world, bs, es)
  {
    hide Next, Enabled, OrderInv, Content;
    var b, id := boards[|events|], e.id;
    if id in b.scenes && b.scenes[id].revision > 0 {
      bs, es := MovedOnBreaks(world, boards, events, e);
    } else {
      bs, es := AfterRetry(world, boards, events, e);
      RetriedScene(world, b, e);
      if id in b.scenes {
        assert !SameAtSameRevision(bs[|events|], bs[|es|], id);
      } else {
        NothingIsOrphaned(world, boards, events, |events|, id);
        assert !Shown(bs[|es|], id);
        assert !NoOrphans(bs[|es|]);
      }
    }
  }

  /** After any run whose retries stored what was there, a further retry leaves
      every continuation sound exactly when it, too, stores what is there. */
  lemma RetryHarmlessIff(world: World, boards: seq<Board>, events: seq<Event>, e: Event)
    requires GuardedRun(world, boards, events) && e.Retry? && Enabled(boards[|events|], e)
    ensures
      SameAsStored(boards[|events|], e.id, e.assembled) <==>
      forall bs, es :: Continues(world, events, e, bs, es) ==> Sound(world, bs, es)
  {
    hide Next, Enabled, Sound, Content, SameAsStored;
    if SameAsStored(boards[|events|], e.id, e.assembled) {
      forall bs, es | Continues(world, events, e, bs, es)
        ensures Sound(world, bs, es)
      {
        RunIsItsEvents(world, boards, bs, events, es, |events|);
        assert es[|events|] == e;
        GuardedRunsAreSound(world, bs, es);
      }
    } else {
      var bs, es := UnguardedRetryBreaks(world, boards, events, e);
    }
  }

  // ----- the two runs that go wrong -----

  /** One scene on an otherwise empty storyboard. */
  function Alone(id: Id, scene: Scene, rendering: set<Id>, captured: set<(Id, Scene)>): Board {
    EMPTY.(scenes := map[id := scene], order := [id], rendering := rendering,
    claims := if rendering == {} then {} else {rendering}, minted := {id}, captured := captured)
  }

  function AfterApproval(scene: Scene): Scene {
    scene.(status := Approved, revision := scene.revision + 1, approvedRevision := Some(scene.revision + 1))
  }

  lemma AloneStarts(world: World, id: Id, scene: Scene)
    requires Unreviewed(scene)
    ensures Enabled(EMPTY, Place(id, scene)) && Next(world, EMPTY, Place(id, scene)) == Alone(id, scene, {}, {})
  {
  }

  lemma AloneRead(world: World, id: Id, scene: Scene, rendering: set<Id>, captured: set<(Id, Scene)>)
    ensures
      var b := Alone(id, scene, rendering, captured);
      Enabled(b, Read(id)) && Next(world, b, Read(id)) == Alone(id, scene, rendering, captured + {(id, scene)})
  {
  }

  lemma AloneApproves(world: World, id: Id, base: Scene, scene: Scene, rendering: set<Id>, captured: set<(Id, Scene)>)
    requires (id, base) in captured && !Unacknowledged(world, base) && scene.revision == base.revision
    ensures
      var b := Alone(id, scene, rendering, captured);
      && Enabled(b, Approve(id, base))
      && Next(world, b, Approve(id, base)) == Alone(id, AfterApproval(scene), rendering, captured)
  {
  }

  lemma AloneClaims(world: World, id: Id, scene: Scene, captured: set<(Id, Scene)>)
    requires scene.RenderReady() && world.maxBatch > 0
    ensures
      var b := Alone(id, scene, {}, captured);
      Enabled(b, Claim) && Next(world, b, Claim) == Alone(id, scene, {id}, captured + {(id, scene)})
  {
    var b := Alone(id, scene, {}, captured);
    AloneReady(world, b, id);
    ClaimedOne(b, id);
    hide ClaimResult, Claimed;
    assert b.claims + {{id}} == {{id}};
  }

  lemma ClaimedOne(b: Board, id: Id)
    requires id in b.scenes
    ensures Claimed(b, [id]) == b.(rendering := b.rendering + {id}, claims := b.claims + {{id}}, captured := b.captured + {(id, b.scenes[id])})
  {
    assert forall x :: x in [id] <==> x == id;
    assert IdSet([id]) == {id};
    assert (set x | x in [id] :: (x, b.scenes[x])) == {(id, b.scenes[id])};
  }

  lemma AloneReady(world: World, b: Board, id: Id)
    requires b.order == [id] && id in b.scenes && b.scenes[id].RenderReady() && b.rendering == {} && world.maxBatch > 0
    ensures ClaimResult(world, b) == Ok([id])
  {
    assert [id][..0] == [];
    assert ReadyIds(b.scenes, [id]) == [id];
  }

  lemma AloneRetries(world: World, id: Id, scene: Scene, base: Scene, assembled: Scene, rendering: set<Id>, captured: set<(Id, Scene)>)
    requires (id, base) in captured && Unreviewed(base) && Unreviewed(assembled)
    requires assembled.candidate == base.candidate && assembled.grade == base.grade
    requires assembled.gradeOverridden == base.gradeOverridden
    ensures
      var b, e := Alone(id, scene, rendering, captured), Retry(id, base, assembled);
      Enabled(b, e) && Next(world, b, e) == Alone(id, assembled, rendering, captured)
  {
  }

  lemma AlonePublishes(
    world: World, id: Id, base: Scene, scene: Scene, rendering: set<Id>, captured: set<(Id, Scene)>,
    path: Name, clip: Name)
    requires (id, base) in captured && path != id && clip != id && path != clip
    requires scene.RenderReady() && scene.revision == base.revision && base.Key() != scene.Key()
    ensures
      var b, e := Alone(id, scene, rendering, captured), Publish(id, base, path, clip, true);
      Enabled(b, e) && HandsOut(b, e) && !ClipIsCurrent(Next(world, b, e), id)
  {
  }

  lemma Grow(world: World, boards: seq<Board>, events: seq<Event>, e: Event, n: Board)
    returns (bs: seq<Board>, es: seq<Event>)
    requires Run(world, boards, events) && Enabled(boards[|events|], e) && n == Next(world, boards[|events|], e)
    ensures bs == boards + [n] && es == events + [e]
    ensures Run(world, bs, es) && |bs| == |es| + 1 && bs[|es|] == n && bs[|es| - 1] == boards[|events|]
  {
    hide Next, Enabled;
    bs, es := boards + [n], events + [e];
    forall k | 0 <= k < |es|
      ensures Enabled(bs[k], es[k]) && bs[k + 1] == Next(world, bs[k], es[k])
    {
      assert k < |events| ==> es[k] == events[k] && bs[k] == boards[k] && bs[k + 1] == boards[k + 1];
    }
  }

  /** A copy read before a retry passes the revision check after it: the approval
      lands on params the approver never saw, with a mismatch nobody saw. */
  lemma StaleApprovalAfterRetry() returns (world: World, boards: seq<Board>, events: seq<Event>, id: Id)
    ensures Run(world, boards, events)
    ensures
      var last := boards[|events|];
      id in last.scenes && last.scenes[id].RenderReady() && Unacknowledged(world, last.scenes[id])
  {
    hide Next, Enabled;
    id := "scene";
    world := World((key: RenderKey) => if key.params == "three" then Some(3.0) else Some(4.0), _ => false, 12);
    var base := Scene(Some("candidate"), [], Some("array_grid"), "three", 3, false, Some(3.0), false,
                      PendingReview, 0, None, None, None);
    var assembled := base.(params := "four");
    var read := {(id, base)};
    boards, events := StartAndRead(world, id, base);
    AloneRetries(world, id, base, base, assembled, {}, read);
    boards, events := Grow(world, boards, events, Retry(id, base, assembled), Alone(id, assembled, {}, read));
    AloneApproves(world, id, base, assembled, {}, read);
    boards, events := Grow(world, boards, events, Approve(id, base), Alone(id, AfterApproval(assembled), {}, read));
  }

  lemma StartAndRead(world: World, id: Id, base: Scene) returns (boards: seq<Board>, events: seq<Event>)
    requires Unreviewed(base)
    ensures Run(world, boards, events) && |boards| == |events| + 1
    ensures boards[|events|] == Alone(id, base, {}, {(id, base)})
  {
    hide Next, Enabled, Alone;
    boards, events := [EMPTY], [];
    AloneStarts(world, id, base);
    boards, events := Grow(world, boards, events, Place(id, base), Alone(id, base, {}, {}));
    AloneRead(world, id, base, {}, {});
    assert {} + {(id, base)} == {(id, base)};
    boards, events := Grow(world, boards, events, Read(id), Alone(id, base, {}, {(id, base)}));
  }

  /** A render that started before a retry is published after a new approval at
      the same revision: the clip shows the old params. */
  lemma StaleRenderAfterRetry() returns (world: World, boards: seq<Board>, events: seq<Event>, k: nat)
    ensures Run(world, boards, events) && k < |events|
    ensures events[k].Publish? && HandsOut(boards[k], events[k]) && !ClipIsCurrent(boards[k + 1], events[k].id)
  {
    var id := "scene";
    world := World((key: RenderKey) => None, _ => false, 12);
    var base := Scene(Some("candidate"), [], Some("array_grid"), "three", 3, false, None, false,
                      PendingReview, 0, None, None, None);
    var assembled := base.(params := "four");
    boards, events := StaleRender(world, id, base, assembled, "file", "clip");
    k := |events| - 1;
  }

  lemma StaleRender(world: World, id: Id, base: Scene, assembled: Scene, path: Name, clip: Name)
    returns (boards: seq<Board>, events: seq<Event>)
    requires path != id && clip != id && path != clip
    requires Unreviewed(base) && Unreviewed(assembled) && world.maxBatch > 0
    requires assembled.candidate == base.candidate && assembled.grade == base.grade
    requires assembled.gradeOverridden == base.gradeOverridden && base.Key() != assembled.Key()
    requires !Unacknowledged(world, base) && !Unacknowledged(world, assembled)
    ensures Run(world, boards, events) && events != []
    ensures
      var k := |events| - 1;
      events[k].Publish? && HandsOut(boards[k], events[k]) && !ClipIsCurrent(boards[k + 1], events[k].id)
  {
    hide Next, Enabled, Alone, Run, Unacknowledged, HandsOut, ClipIsCurrent;
    var was, now := AfterApproval(base), AfterApproval(assembled);
    var read, claimed := {(id, base)}, {(id, base), (id, was)};
    var again := {(id, base), (id, was), (id, assembled)};
    assert read + {(id, was)} == claimed && claimed + {(id, assembled)} == again;
    boards, events := StartAndRead(world, id, base);
    AloneApproves(world, id, base, base, {}, read);
    boards, events := Grow(world, boards, events, Approve(id, base), Alone(id, was, {}, read));
    AloneClaims(world, id, was, read);
    boards, events := Grow(world, boards, events, Claim, Alone(id, was, {id}, claimed));
    AloneRetries(world, id, was, base, assembled, {id}, claimed);
    boards, events := Grow(world, boards, events, Retry(id, base, assembled), Alone(id, assembled, {id}, claimed));
    AloneRead(world, id, assembled, {id}, claimed);
    boards, events := Grow(world, boards, events, Read(id), Alone(id, assembled, {id}, again));
    AloneApproves(world, id, assembled, assembled, {id}, again);
    boards, events := Grow(world, boards, events, Approve(id, assembled), Alone(id, now, {id}, again));
    AlonePublishes(world, id, was, now, {id}, again, path, clip);
    var publish := Publish(id, was, path, clip, true);
    boards, events := Grow(world, boards, events, publish, Next(world, Alone(id, now, {id}, again), publish));
  }
}
