/** The mutable session behind the storyboard protocol. */
module StoryboardSession {
  import opened Collections
  import opened Outcomes
  import opened StoryboardOrder
  import opened Storyboard

  // ----- what combining and retrying are refused for -----

  /** The first of the read copies that cannot be combined, in the order asked for. */
  function Unfit(world: World, bases: seq<Scene>): Option<Refusal> {
    if bases == [] then None
    else if !bases[0].status.PendingReview? || bases[0].candidate.None? then Some(BadRequest)
    else if Unacknowledged(world, bases[0]) then Some(Conflict)
    else Unfit(world, bases[1..])
  }

  predicate OneTemplate(bases: seq<Scene>, template: Option<Template>) {
    forall i | 0 <= i < |bases| :: bases[i].template == template
  }

  /** What the request is refused for before its thumbnail is rendered. */
  function RequestRefusal(world: World, ids: seq<Id>, bases: seq<Scene>): Option<Refusal>
    requires |bases| == |ids|
  {
    if !(2 <= |ids| <= 4) || !AllDistinct(ids) then Some(BadRequest)
    else if Unfit(world, bases).Some? then Unfit(world, bases)
    else if !OneTemplate(bases, bases[0].template) then Some(BadRequest)
    else if bases[0].template.None? || !world.chainable(bases[0].template.value) then Some(BadRequest)
    else None
  }

  /** The refusals in order: of the request, of its thumbnail, and of chosen scenes
      that are no longer what the request read. */
  function ChainRefusal(world: World, scenes: map<Id, Scene>, order: seq<Id>, ids: seq<Id>, bases: seq<Scene>, preview: bool):
    Option<Refusal>
    requires |bases| == |ids|
  {
    var refusal := RequestRefusal(world, ids, bases);
    if refusal.Some? then refusal
    else if !preview then Some(ServerError)
    else if exists k :: 0 <= k < |ids| && !Combinable(world, scenes, order, ids[k], bases[k], bases[0].template) then Some(Conflict)
    else None
  }

  lemma {:induction false} UnfitIff(world: World, bases: seq<Scene>)
    ensures Unfit(world, bases).None? <==>
            forall i :: 0 <= i < |bases| ==>
                          bases[i].status.PendingReview? && bases[i].candidate.Some? && !Unacknowledged(world, bases[i])
  {
    if bases != [] {
      hide Unacknowledged;
      UnfitIff(world, bases[1..]);
      assert forall i :: 1 <= i < |bases| ==> bases[i] == bases[1..][i - 1];
    }
  }

  /** Nothing is refused exactly when the combination is allowed. */
  lemma ChainRefusalIff(
    world: World, scenes: map<Id, Scene>, order: seq<Id>, ids: seq<Id>, bases: seq<Scene>, preview: bool)
    requires |bases| == |ids|
    ensures ChainRefusal(world, scenes, order, ids, bases, preview).None? <==>
            preview && CombineAllowed(world, scenes, order, ids, bases)
  {
    UnfitIff(world, bases);
    hide Unfit, Unacknowledged, AllDistinct;
    if CombineAllowed(world, scenes, order, ids, bases) {
      forall k | 0 <= k < |ids|
        ensures bases[k].status.PendingReview? && bases[k].candidate.Some? && !Unacknowledged(world, bases[k])
        ensures bases[k].template == bases[0].template
      {
        assert Combinable(world, scenes, order, ids[k], bases[k], bases[0].template);
      }
    }
  }

  /** What a retry finds out before it writes: whether the candidate is still known,
      whether a template was requested for the scene, and what assembling made. */
  datatype Attempt = Attempt(known: bool, requested: bool, assembled: Option<Scene>)

  function RetryRefusal(base: Scene, a: Attempt): Option<Refusal> {
    if base.candidate.None? then Some(BadRequest)
    else if !a.known then Some(NotFound)
    else if !a.requested then Some(BadRequest)
    else if a.assembled.None? then Some(ServerError)
    else None
  }

  /** The mutable session. Each method is one critical section of a handler and
      is exactly one step of the protocol. */
  class Session {
    const world: World
    var scenes: map<Id, Scene>
    var order: seq<Id>
    var members: Members
    var rendering: set<Id>
    ghost var claims: set<set<Id>>
    var clipOf: map<Id, Name>
    var clips: map<Name, Name>
    var files: map<Name, RenderKey>
    ghost var minted: set<Name>
    ghost var captured: set<(Id, Scene)>

    ghost function Value(): Board
      reads this
    {
      Board(scenes, order, members, rendering, claims, clipOf, clips, files, minted, captured)
    }

    constructor (world: World)
      ensures Value() == EMPTY && this.world == world
    {
      this.world := world;
      scenes, order, members, rendering, clipOf := map[], [], map[], {}, map[];
      clips, files := map[], map[];
      minted, captured, claims := {}, {}, {};
    }

    method WriteSceneCas(id: Id, baseRevision: nat, w: Write) returns (r: Result<Scene, Refusal>)
      modifies this`scenes
      ensures r == CasResult(old(scenes), order, id, baseRevision, w)
      ensures scenes == if r.Ok? then old(scenes)[id := r.value] else old(scenes)
    {
      if id !in scenes || id !in order {
        return Err(NotFound);
      }
      var current := scenes[id];
      if current.revision != baseRevision {
        return Err(Conflict);
      }
      var nextRevision := if w.bump then baseRevision + 1 else baseRevision;
      var updated := Updated(current, w.updates, nextRevision);
      scenes := scenes[id := updated];
      return Ok(updated);
    }

    /** The commit of a request that read `e.base`. */
    method CommitRequest(e: Event) returns (r: Result<Scene, Refusal>)
      requires e.Edit? || e.Approve? || e.Reject? || e.Acknowledge?
      modifies this`scenes
      ensures Value() == Next(world, old(Value()), e)
      ensures r == Answered(world, old(Value()), e)
    {
      var plan := Plan(world, e);
      if plan.Err? {
        return Err(plan.error);
      }
      r := WriteSceneCas(e.id, e.base.revision, plan.value);
    }

    /** Whether every chosen scene is still the one the request read. */
    method Revalidate(ids: seq<Id>, bases: seq<Scene>, template: Option<Template>) returns (valid: bool)
      requires |bases| == |ids|
      ensures valid <==> forall k :: 0 <= k < |ids| ==> Combinable(world, scenes, order, ids[k], bases[k], template)
    {
      for k := 0 to |ids|
        invariant forall j :: 0 <= j < k ==> Combinable(world, scenes, order, ids[j], bases[j], template)
      {
        var sid, base := ids[k], bases[k];
        if sid !in scenes || sid !in order {
          return false;
        }
        var current := scenes[sid];
        if (current != base || current.revision != base.revision || !current.status.PendingReview?
            || current.template != template || current.candidate.None? || Unacknowledged(world, current)) {
          return false;
        }
      }
      return true;
    }

    /** Whether every read copy can be combined, from the first on. */
    method CheckChosen(bases: seq<Scene>) returns (refusal: Option<Refusal>)
      ensures refusal == Unfit(world, bases)
    {
      hide Unacknowledged;
      for k := 0 to |bases|
        invariant Unfit(world, bases) == Unfit(world, bases[k..])
      {
        assert bases[k..][1..] == bases[k + 1..];
        if !bases[k].status.PendingReview? || bases[k].candidate.None? {
          return Some(BadRequest);
        }
        if Unacknowledged(world, bases[k]) {
          return Some(Conflict);
        }
      }
      return None;
    }

    method ChainScenes(ids: seq<Id>, bases: seq<Scene>, chain: Id, params: Params, preview: bool)
      returns (r: Result<Scene, Refusal>)
      requires OrderInv(Value()) && |bases| == |ids|
      modifies this
      ensures Value() == Next(world, old(Value()), Combine(ids, bases, chain, params, preview))
      ensures r.Ok? <==> preview && CombineAllowed(world, old(scenes), old(order), ids, bases)
      ensures r.Err? ==> Some(r.error) == ChainRefusal(world, old(scenes), old(order), ids, bases, preview)
    {
      hide WellOrdered, Expand, Combined, Unacknowledged, Next, OrderInv, CombineAllowed, Unfit;
      CombineStep(world, Value(), ids, bases, chain, params, preview);
      ChainRefusalIff(world, scenes, order, ids, bases, preview);
      if !(2 <= |ids| <= 4) || !AllDistinct(ids) {
        return Err(BadRequest);
      }
      var unfit := CheckChosen(bases);
      if unfit.Some? {
        return Err(unfit.value);
      }
      if (!OneTemplate(bases, bases[0].template) || bases[0].template.None?
          || !world.chainable(bases[0].template.value)) {
        return Err(BadRequest);
      }
      if !preview {
        return Err(ServerError);
      }
      var valid := Revalidate(ids, bases, bases[0].template);
      if !valid {
        return Err(Conflict);
      }
      AllowedAreOnOrder(world, Value(), ids, bases);
      var scene := ChainScene(bases, params);
      CommitChain(ids, chain, scene);
      return Ok(scene);
    }

    /** The rewrite of order, scenes and members under the lock. */
    method CommitChain(ids: seq<Id>, chain: Id, scene: Scene)
      requires OrderInv(Value()) && ids != [] && AllDistinct(ids) && forall x :: x in ids ==> x in order
      modifies this
      ensures Value() == Combined(old(Value()), IdSet(ids), chain, scene)
    {
      hide WellOrdered, Expand, Chained, Filter;
      OrderNoDup(order, members);
      DistinctIds(ids);
      var combined := ChainOrder(order, ids, chain);
      members := members[chain := Filter(order, IdSet(ids), true)];
      order := combined;
      scenes := scenes[chain := scene];
      minted := minted + {chain};
    }

    method UngroupScene(id: Id) returns (r: Result<seq<Id>, Refusal>)
      requires OrderInv(Value())
      modifies this
      ensures Value() == Next(world, old(Value()), Ungroup(id))
      ensures r == if id in old(members) then Ok(old(members)[id]) else Err(NotFound)
      ensures r.Ok? ==> forall x :: x in r.value ==> x in scenes
    {
      hide Expand, Unchained, Next;
      UngroupStep(world, Value(), id);
      if id !in members {
        return Err(NotFound);
      }
      var inner := members[id];
      forall x | x in inner
        ensures x in scenes && x != id
      {
        MembersOffOrder(order, members, id, x);
      }
      order := UngroupOrder(order, id, inner);
      scenes := scenes - {id};
      members := members - {id};
      return Ok(inner);
    }

    method ApprovedScenes() returns (approved: seq<Id>)
      requires OrderInv(Value())
      ensures approved == ReadyIds(scenes, order)
    {
      hide WellOrdered;
      approved := [];
      for k := 0 to |order|
        invariant approved == ReadyIds(scenes, order[..k])
      {
        assert order[..k + 1][..k] == order[..k] && order[k] in order;
        if scenes[order[k]].RenderReady() {
          approved := approved + [order[k]];
        }
      }
      assert order[..|order|] == order;
    }

    method BatchRefusal(approved: seq<Id>) returns (refusal: Option<Refusal>)
      requires approved == ReadyIds(scenes, order)
      ensures ClaimResult(world, Value()) == if refusal.Some? then Err(refusal.value) else Ok(approved)
    {
      hide ReadyIds;
      if approved == [] || |approved| > world.maxBatch {
        return Some(BadRequest);
      }
      if exists id :: id in approved && id in rendering {
        return Some(Conflict);
      }
      return None;
    }

    method TakeBatch(approved: seq<Id>)
      requires forall id :: id in approved ==> id in scenes
      modifies this
      ensures Value() == Claimed(old(Value()), approved)
    {
      rendering := rendering + IdSet(approved);
      claims := claims + {IdSet(approved)};
      captured := captured + set id | id in approved :: (id, scenes[id]);
    }

    method ClaimRenderBatch() returns (r: Result<seq<Id>, Refusal>, ghost at: seq<nat>)
      requires OrderInv(Value())
      modifies this
      ensures Value() == Next(world, old(Value()), Claim)
      ensures r == ClaimResult(world, old(Value()))
      ensures Increasing(at) && forall i: nat :: i in at <==> ReadyAt(old(scenes), old(order), i)
      ensures r == Err(BadRequest) <==> at == [] || |at| > world.maxBatch
      ensures r == Err(Conflict) <==>
              0 < |at| <= world.maxBatch && exists i :: i in at && i < |old(order)| && old(order)[i] in old(rendering)
      ensures r.Ok? ==> Picked(old(order), at, r.value) && AllDistinct(r.value)
      ensures r.Ok? ==> forall id :: id in r.value ==> id !in old(rendering)
    {
      OrderNoDup(order, members);
      hide OrderInv, Next, WellOrdered, NoDup, ReadyAt, ReadyIds, ClaimResult, Picked, AllDistinct;
      ClaimStep(world, Value());
      at := ClaimResultIff(world, Value());
      var approved := ApprovedScenes();
      var refusal := BatchRefusal(approved);
      if refusal.Some? {
        return Err(refusal.value), at;
      }
      TakeBatch(approved);
      return Ok(approved), at;
    }

    method ReleaseRenderBatch(ids: seq<Id>)
      modifies this`rendering, this`claims
      ensures Value() == Next(world, old(Value()), Release(IdSet(ids)))
    {
      for k := 0 to |ids|
        invariant rendering == old(rendering) - IdSet(ids[..k]) && claims == old(claims)
      {
        assert ids[..k + 1] == ids[..k] + [ids[k]];
        rendering := rendering - {ids[k]};
      }
      assert ids[..|ids|] == ids;
      claims := claims - {IdSet(ids)};
    }

    /** A finished render of `base` at `path`: register it, or drop it as stale or
        because registering finds its file gone. */
    method PublishRender(id: Id, base: Scene, path: Name, clip: Name, found: bool) returns (published: bool)
      modifies this
      ensures Value() == Next(world, old(Value()), Publish(id, base, path, clip, found))
      ensures published == (found && StillCurrent(old(scenes), id, base))
    {
      hide Next;
      PublishStep(world, Value(), id, base, path, clip, found);
      if id !in scenes {
        return false;
      }
      var current := scenes[id];
      if !current.RenderReady() || current.revision != base.revision {
        return false;
      }
      if !found {
        return false;
      }
      files := files[path := base.Key()];
      clips := clips[clip := path];
      scenes := scenes[id := current.(renderPath := Some(path), rendered := Some(base.Key()))];
      clipOf := clipOf[id := clip];
      minted := minted + {path, clip};
      return true;
    }

    /** The clip to answer with instead of rendering; a file that registering finds
        gone is a miss. */
    method ResolveCachedClip(id: Id, base: Scene, clip: Name, found: bool) returns (cached: Option<Name>)
      modifies this
      ensures Value() == Next(world, old(Value()), Reuse(id, base, clip, found))
      ensures cached.Some? <==> HandsOut(old(Value()), Reuse(id, base, clip, found))
      ensures cached.Some? ==> HasClip(Value(), id) && cached.value == clipOf[id]
    {
      hide Next;
      ReuseStep(world, Value(), id, base, clip, found);
      if id !in scenes {
        return None;
      }
      var current := scenes[id];
      if !current.RenderReady() || current.revision != base.revision {
        return None;
      }
      if current.rendered != Some(base.Key()) {
        return None;
      }
      if current.renderPath.None? || current.renderPath.value !in files {
        return None;
      }
      if id !in clipOf || clipOf[id] !in clips {
        if !found {
          return None;
        }
        clips := clips[clip := current.renderPath.value];
        clipOf := clipOf[id := clip];
        minted := minted + {clip};
      }
      return Some(clipOf[id]);
    }

    /** A retry that read `base`: its write takes no lock and checks no revision. */
    method RetryScene(id: Id, base: Scene, attempt: Attempt) returns (r: Result<Scene, Refusal>)
      modifies this`scenes
      ensures r.Err? ==> Some(r.error) == RetryRefusal(base, attempt) && Value() == old(Value())
      ensures r.Ok? ==>
                && RetryRefusal(base, attempt).None?
                && r.value == attempt.assembled.value.(gradeOverridden := base.gradeOverridden)
                && Value() == Next(world, old(Value()), Retry(id, base, attempt.assembled.value))
    {
      if base.candidate.None? {
        return Err(BadRequest);
      }
      if !attempt.known {
        return Err(NotFound);
      }
      if !attempt.requested {
        return Err(BadRequest);
      }
      if attempt.assembled.None? {
        return Err(ServerError);
      }
      var updated := attempt.assembled.value.(gradeOverridden := base.gradeOverridden);
      scenes := scenes[id := updated];
      return Ok(updated);
    }
  }

  // ----- what each step is -----

  lemma AllowedAreOnOrder(world: World, b: Board, ids: seq<Id>, bases: seq<Scene>)
    requires CombineAllowed(world, b.scenes, b.order, ids, bases)
    ensures ids != [] && AllDistinct(ids) && bases != [] && forall x :: x in ids ==> x in b.order
  {
    hide Unacknowledged;
    forall x | x in ids
      ensures x in b.order
    {
      var k :| 0 <= k < |ids| && ids[k] == x;
      assert Combinable(world, b.scenes, b.order, ids[k], bases[k], bases[0].template);
    }
  }

  lemma CombineStep(world: World, b: Board, ids: seq<Id>, bases: seq<Scene>, chain: Id, params: Params, preview: bool)
    ensures Next(world, b, Combine(ids, bases, chain, params, preview))
         == if preview && CombineAllowed(world, b.scenes, b.order, ids, bases)
            then Combined(b, IdSet(ids), chain, ChainScene(bases, params))
            else b
  {
  }

  lemma UngroupStep(world: World, b: Board, id: Id)
    ensures Next(world, b, Ungroup(id)) == if id in b.members && id in b.order then Ungrouped(b, id) else b
  {
  }

  lemma ClaimStep(world: World, b: Board)
    ensures Next(world, b, Claim) == if ClaimResult(world, b).Ok? then Claimed(b, ClaimResult(world, b).value) else b
  {
  }

  lemma PublishStep(world: World, b: Board, id: Id, base: Scene, path: Name, clip: Name, found: bool)
    ensures Next(world, b, Publish(id, base, path, clip, found))
         == if found && StillCurrent(b.scenes, id, base) then Published(b, id, base, path, clip) else b
  {
  }

  lemma ReuseStep(world: World, b: Board, id: Id, base: Scene, clip: Name, found: bool)
    ensures Next(world, b, Reuse(id, base, clip, found))
         == if found && Reusable(b, id, base) && !HasClip(b, id) then Reregistered(b, id, clip) else b
  {
  }
}
