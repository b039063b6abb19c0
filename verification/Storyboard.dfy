/** A session's storyboard under concurrent requests. Every request reads a scene,
    works on that copy outside the lock, and commits under the lock; renders
    publish long after they read. A run is any interleaving of these steps. */
module Storyboard {
  import opened Collections
  import opened Outcomes
  import opened StoryboardOrder

  type Name = string
  type Template = string
  type Params = string
  type Answer = real

  datatype Status = PendingReview | Approved | Rejected | Fallback

  /** Everything a render depends on. The stored content hash is taken to be
      injective in it, so the key itself stands for the hash. */
  datatype RenderKey = RenderKey(template: Option<Template>, params: Params, chained: bool)

  datatype Scene = Scene(
    candidate: Option<Id>, chainOf: seq<Id>, template: Option<Template>, params: Params,
    grade: int, gradeOverridden: bool, stated: Option<Answer>, acknowledged: bool,
    status: Status, revision: nat, approvedRevision: Option<nat>,
    renderPath: Option<Name>, rendered: Option<RenderKey>)
  {
    function Key(): RenderKey {
      RenderKey(template, params, chainOf != [])
    }

    predicate RenderReady() {
      status.Approved? && (approvedRevision.None? || approvedRevision.value == revision)
    }
  }

  datatype Refusal = BadRequest | NotFound | Conflict | Unprocessable | ServerError

  /** What the session cannot decide itself: the answer each template computes,
      which templates have a chained form, and the configured batch cap. */
  datatype World = World(answers: RenderKey -> Option<Answer>, chainable: Template -> bool, maxBatch: nat)

  predicate Mismatch(world: World, scene: Scene) {
    && scene.stated.Some? && scene.template.Some?
    && world.answers(scene.Key()).Some?
    && world.answers(scene.Key()).value != scene.stated.value
  }

  predicate Unacknowledged(world: World, scene: Scene) {
    Mismatch(world, scene) && !scene.acknowledged
  }

  // ----- planned writes -----

  datatype Updates = Updates(
    params: Option<Params>, grade: Option<int>, gradeOverridden: Option<bool>,
    status: Option<Status>, approvedRevision: Option<nat>, acknowledged: Option<bool>)

  const NO_UPDATES := Updates(None, None, None, None, None, None)

  /** Updates together with whether they bump the revision. */
  datatype Write = Write(updates: Updates, bump: bool)

  function Or<T>(o: Option<T>, otherwise: T): T {
    if o.Some? then o.value else otherwise
  }

  function Updated(scene: Scene, u: Updates, revision: nat): Scene {
    scene.(params := Or(u.params, scene.params),
    grade := Or(u.grade, scene.grade),
    gradeOverridden := Or(u.gradeOverridden, scene.gradeOverridden),
    status := Or(u.status, scene.status),
    approvedRevision := if u.approvedRevision.Some? then u.approvedRevision else scene.approvedRevision,
    acknowledged := Or(u.acknowledged, scene.acknowledged),
    revision := revision)
  }

  /** A content change revokes the review decision and the acknowledgement; a
      resent value is no change and keeps the revision. */
  function PlanEdit(base: Scene, params: Option<Params>, grade: Option<int>): Result<Write, Refusal> {
    if base.template.None? then Err(BadRequest)
    else if grade.Some? && !(0 <= grade.value <= 8) then Err(Unprocessable)
    else
      var changed := (params.Some? && params.value != base.params) || (grade.Some? && grade.value != base.grade);
      Ok(Write(
           Updates(Some(Or(params, base.params)), Some(Or(grade, base.grade)),
                   Some(base.gradeOverridden || grade.Some?),
                   if changed && (base.status.Approved? || base.status.Rejected?) then Some(PendingReview) else None,
                   None, if changed then Some(false) else None),
           changed))
  }

  function PlanApprove(world: World, base: Scene): Result<Write, Refusal> {
    if Unacknowledged(world, base) then Err(Conflict)
    else Ok(Write(NO_UPDATES.(status := Some(Approved), approvedRevision := Some(base.revision + 1)), true))
  }

  function PlanReject(): Write {
    Write(NO_UPDATES.(status := Some(Rejected)), true)
  }

  function PlanAcknowledge(world: World, base: Scene): Result<Write, Refusal> {
    if !Mismatch(world, base) then Err(Conflict)
    else Ok(Write(NO_UPDATES.(acknowledged := Some(true)), true))
  }

  /** The scene a compare-and-swap commit would store. */
  function CasResult(scenes: map<Id, Scene>, order: seq<Id>, id: Id, baseRevision: nat, w: Write): Result<Scene, Refusal> {
    if id !in scenes || id !in order then Err(NotFound)
    else if scenes[id].revision != baseRevision then Err(Conflict)
    else Ok(Updated(scenes[id], w.updates, if w.bump then baseRevision + 1 else baseRevision))
  }

  // ----- the session and its steps -----

  /** `minted` holds every unique name handed out so far, `captured` the copies
      that requests still in flight may act on, and `claims` the batches claimed
      for rendering and not released. */
  datatype Board = Board(
    scenes: map<Id, Scene>, order: seq<Id>, members: Members, rendering: set<Id>, claims: set<set<Id>>,
    clipOf: map<Id, Name>, clips: map<Name, Name>, files: map<Name, RenderKey>,
    minted: set<Name>, captured: set<(Id, Scene)>)

  const EMPTY := Board(map[], [], map[], {}, {}, map[], map[], map[], {}, {})

  /** `preview` says whether the chain's thumbnail rendered, `found` whether the
      file was still there when the clip was registered. */
  datatype Event =
    | Read(id: Id)
    | Claim
    | Release(ids: set<Id>)
    | Forget(id: Id, base: Scene)
    | Edit(id: Id, base: Scene, params: Option<Params>, grade: Option<int>)
    | Approve(id: Id, base: Scene)
    | Reject(id: Id, base: Scene)
    | Acknowledge(id: Id, base: Scene)
    | Combine(chosen: seq<Id>, bases: seq<Scene>, chain: Id, chainParams: Params, preview: bool)
    | Ungroup(id: Id)
    | Publish(id: Id, base: Scene, path: Name, clip: Name, found: bool)
    | Reuse(id: Id, base: Scene, clip: Name, found: bool)
    | Retry(id: Id, base: Scene, assembled: Scene)
    | Evict(lostClips: set<Name>, lostFiles: set<Name>)
    | Place(id: Id, scene: Scene)
    | Clear

  /** What a request plans to write, from the copy it read. */
  function Plan(world: World, e: Event): Result<Write, Refusal>
    requires e.Edit? || e.Approve? || e.Reject? || e.Acknowledge?
  {
    match e
    case Edit(_, base, params, grade) => PlanEdit(base, params, grade)
    case Approve(_, base) => PlanApprove(world, base)
    case Reject(_, base) => Ok(PlanReject())
    case Acknowledge(_, base) => PlanAcknowledge(world, base)
  }

  function Commit(b: Board, id: Id, base: Scene, w: Write): Board {
    var r := CasResult(b.scenes, b.order, id, base.revision, w);
    if r.Ok? then b.(scenes := b.scenes[id := r.value]) else b
  }

  function ReadyIds(scenes: map<Id, Scene>, order: seq<Id>): (ready: seq<Id>)
    ensures forall id :: id in ready ==> id in order && id in scenes && scenes[id].RenderReady()
  {
    if order == [] then []
    else
      var rest := ReadyIds(scenes, order[..|order| - 1]);
      var last := order[|order| - 1];
      if last in scenes && scenes[last].RenderReady() then rest + [last] else rest
  }

  /** Approved, and nothing changed since the approval. */
  predicate ReadyAt(scenes: map<Id, Scene>, order: seq<Id>, i: nat) {
    && i < |order| && order[i] in scenes && scenes[order[i]].status == Approved
    && scenes[order[i]].approvedRevision in {None, Some(scenes[order[i]].revision)}
  }

  /** The ready scenes are those of the order at which nothing is left to review, in
      the order's sequence. */
  lemma {:induction false} ReadyIdsPicked(scenes: map<Id, Scene>, order: seq<Id>) returns (at: seq<nat>)
    ensures Picked(order, at, ReadyIds(scenes, order))
    ensures forall i: nat :: i in at <==> ReadyAt(scenes, order, i)
    decreases |order|
  {
    at := [];
    if order != [] {
      var n := |order| - 1;
      var front, last := order[..n], order[n];
      at := ReadyIdsPicked(scenes, front);
      PickedSnoc(front, at, ReadyIds(scenes, front), last);
      assert order == front + [last];
      forall i: nat
        ensures ReadyAt(scenes, order, i) <==>
                if i == n then last in scenes && scenes[last].RenderReady() else ReadyAt(scenes, front, i)
      {
      }
      if last in scenes && scenes[last].RenderReady() {
        at := at + [n];
      }
    }
  }

  function ClaimResult(world: World, b: Board): Result<seq<Id>, Refusal> {
    var ready := ReadyIds(b.scenes, b.order);
    if ready == [] || |ready| > world.maxBatch then Err(BadRequest)
    else if exists id :: id in ready && id in b.rendering then Err(Conflict)
    else Ok(ready)
  }

  /** What a claim answers, told by the places of the ready scenes. */
  lemma ClaimResultIff(world: World, b: Board) returns (at: seq<nat>)
    requires NoDup(b.order)
    ensures Increasing(at) && forall i: nat :: i in at <==> ReadyAt(b.scenes, b.order, i)
    ensures
      var r := ClaimResult(world, b);
      && (r == Err(BadRequest) <==> at == [] || |at| > world.maxBatch)
      && (r == Err(Conflict) <==> 0 < |at| <= world.maxBatch && exists i :: i in at && i < |b.order| && b.order[i] in b.rendering)
      && (r.Ok? ==> Picked(b.order, at, r.value) && AllDistinct(r.value))
  {
    at := ReadyIdsPicked(b.scenes, b.order);
    var ready := ReadyIds(b.scenes, b.order);
    hide ReadyAt, ReadyIds;
    assert forall k :: 0 <= k < |at| ==> at[k] in at && ready[k] == b.order[at[k]];
    PickedDistinct(b.order, at, ready);
    if exists i :: i in at && i < |b.order| && b.order[i] in b.rendering {
      var i :| i in at && i < |b.order| && b.order[i] in b.rendering;
      var k :| 0 <= k < |at| && at[k] == i;
      assert ready[k] in ready;
    }
  }

  lemma PickedDistinct(order: seq<Id>, at: seq<nat>, ids: seq<Id>)
    requires NoDup(order) && Picked(order, at, ids)
    ensures AllDistinct(ids)
  {
    forall j, k | 0 <= j < k < |ids|
      ensures ids[j] != ids[k]
    {
      Distinct(order, at[j]);
      assert order[at[k]] == order[at[j] + 1..][at[k] - at[j] - 1];
    }
  }

  /** One chosen scene as the commit re-checks it. The original compares object
      identity, which implies the equality of the copies demanded here. */
  predicate Combinable(world: World, scenes: map<Id, Scene>, order: seq<Id>, id: Id, base: Scene, template: Option<Template>) {
    && id in scenes && id in order
    && scenes[id] == base
    && base.status.PendingReview?
    && base.template == template
    && base.candidate.Some?
    && !Unacknowledged(world, base)
  }

  predicate AllDistinct(ids: seq<Id>) {
    forall i, j :: 0 <= i < j < |ids| ==> ids[i] != ids[j]
  }

  predicate CombineAllowed(world: World, scenes: map<Id, Scene>, order: seq<Id>, ids: seq<Id>, bases: seq<Scene>) {
    && 2 <= |ids| <= 4 && |bases| == |ids|
    && AllDistinct(ids)
    && bases[0].template.Some? && world.chainable(bases[0].template.value)
    && forall k :: 0 <= k < |ids| ==> Combinable(world, scenes, order, ids[k], bases[k], bases[0].template)
  }

  function CandidatesOf(bases: seq<Scene>): (ids: seq<Id>)
    ensures |ids| == |bases|
  {
    seq(|bases|, k requires 0 <= k < |bases| => Or(bases[k].candidate, ""))
  }

  function ChainScene(bases: seq<Scene>, params: Params): Scene
    requires bases != []
  {
    Scene(None, CandidatesOf(bases), bases[0].template, params, bases[0].grade, bases[0].gradeOverridden,
          None, false, PendingReview, 0, None, None, None)
  }

  /** A render may publish when the scene is still approved at the rendered revision. */
  predicate StillCurrent(scenes: map<Id, Scene>, id: Id, base: Scene) {
    id in scenes && scenes[id].RenderReady() && scenes[id].revision == base.revision
  }

  predicate Reusable(b: Board, id: Id, base: Scene) {
    && StillCurrent(b.scenes, id, base)
    && b.scenes[id].rendered == Some(base.Key())
    && b.scenes[id].renderPath.Some? && b.scenes[id].renderPath.value in b.files
  }

  /** The board once a render of `base` at `path` is registered as `clip`. */
  function Published(b: Board, id: Id, base: Scene, path: Name, clip: Name): Board
    requires id in b.scenes
  {
    b.(scenes := b.scenes[id := b.scenes[id].(renderPath := Some(path), rendered := Some(base.Key()))],
    clipOf := b.clipOf[id := clip], clips := b.clips[clip := path], files := b.files[path := base.Key()],
    minted := b.minted + {path, clip})
  }

  predicate HasClip(b: Board, id: Id) {
    id in b.clipOf && b.clipOf[id] in b.clips
  }

  /** The board once the file of the last render is registered again as `clip`. */
  function Reregistered(b: Board, id: Id, clip: Name): Board
    requires id in b.scenes && b.scenes[id].renderPath.Some?
  {
    b.(clipOf := b.clipOf[id := clip], clips := b.clips[clip := b.scenes[id].renderPath.value],
    minted := b.minted + {clip})
  }

  function Combined(b: Board, ids: set<Id>, chain: Id, scene: Scene): Board {
    b.(scenes := b.scenes[chain := scene],
    order := Chained(b.order, ids, chain),
    members := b.members[chain := Filter(b.order, ids, true)],
    minted := b.minted + {chain})
  }

  function Ungrouped(b: Board, id: Id): Board
    requires id in b.members && id in b.order
  {
    b.(order := Unchained(b.order, id, b.members[id]), scenes := b.scenes - {id}, members := b.members - {id})
  }

  function Claimed(b: Board, ids: seq<Id>): Board
    requires forall id :: id in ids ==> id in b.scenes
  {
    b.(rendering := b.rendering + IdSet(ids), claims := b.claims + {IdSet(ids)},
    captured := b.captured + set id | id in ids :: (id, b.scenes[id]))
  }

  function Placed(b: Board, id: Id, scene: Scene): Board {
    b.(scenes := b.scenes[id := scene], order := b.order + [id], minted := b.minted + {id})
  }

  /** Retry stores a newly assembled scene at revision 0 whatever is there now. */
  function Retried(b: Board, id: Id, base: Scene, assembled: Scene): Board {
    b.(scenes := b.scenes[id := assembled.(gradeOverridden := base.gradeOverridden)])
  }

  function Next(world: World, b: Board, e: Event): Board {
    match e
    case Read(id) =>
      if id in b.scenes && id in b.order then b.(captured := b.captured + {(id, b.scenes[id])}) else b
    case Claim =>
      var r := ClaimResult(world, b);
      if r.Ok? then Claimed(b, r.value) else b
    case Release(ids) => b.(rendering := b.rendering - ids, claims := b.claims - {ids})
    case Forget(id, base) => b.(captured := b.captured - {(id, base)})
    case Combine(ids, bases, chain, params, preview) =>
      if preview && CombineAllowed(world, b.scenes, b.order, ids, bases)
      then Combined(b, IdSet(ids), chain, ChainScene(bases, params))
      else b
    case Ungroup(id) => if id in b.members && id in b.order then Ungrouped(b, id) else b
    case Publish(id, base, path, clip, found) =>
      if found && StillCurrent(b.scenes, id, base) then Published(b, id, base, path, clip) else b
    case Reuse(id, base, clip, found) =>
      if found && Reusable(b, id, base) && !HasClip(b, id) then Reregistered(b, id, clip) else b
    case Retry(id, base, assembled) => Retried(b, id, base, assembled)
    case Evict(lostClips, lostFiles) => b.(clips := b.clips - lostClips, files := b.files - lostFiles)
    case Place(id, scene) => Placed(b, id, scene)
    case Clear => b.(scenes := map[], order := [], members := map[])
    case _ =>
      var plan := Plan(world, e);
      if plan.Ok? then Commit(b, e.id, e.base, plan.value) else b
  }

  /** A newly assembled scene: unreviewed, never rendered, at revision 0. */
  predicate Unreviewed(scene: Scene) {
    && scene.candidate.Some? && scene.chainOf == []
    && (scene.status.PendingReview? || scene.status.Fallback?)
    && !scene.acknowledged && scene.revision == 0 && scene.approvedRevision.None?
    && scene.renderPath.None? && scene.rendered.None?
  }

  /** Requests act only on copies they read, and release only what they claimed;
      new names are new. */
  predicate Enabled(b: Board, e: Event) {
    match e
    case Combine(ids, bases, chain, _, _) =>
      && chain !in b.minted && |bases| == |ids|
      && forall k :: 0 <= k < |ids| ==> (ids[k], bases[k]) in b.captured
    case Publish(id, base, path, clip, _) =>
      (id, base) in b.captured && path !in b.minted && clip !in b.minted && path != clip
    case Reuse(id, base, clip, _) => (id, base) in b.captured && clip !in b.minted
    case Retry(id, base, assembled) =>
      && (id, base) in b.captured && base.candidate.Some? && Unreviewed(assembled)
      && assembled.candidate == base.candidate && assembled.grade == base.grade
    case Place(id, scene) => id !in b.minted && Unreviewed(scene)
    case Release(ids) => ids in b.claims
    case Edit(id, base, _, _) => (id, base) in b.captured
    case Approve(id, base) => (id, base) in b.captured
    case Reject(id, base) => (id, base) in b.captured
    case Acknowledge(id, base) => (id, base) in b.captured
    case _ => true
  }

  // ----- what every step keeps -----

  /** The parts of a scene that its id and revision determine: all but the grade
      marker and the render bookkeeping. */
  function Content(scene: Scene): Scene {
    scene.(gradeOverridden := false, renderPath := None, rendered := None)
  }

  ghost predicate Tracks(before: Scene, after: Scene) {
    && before.candidate == after.candidate
    && before.revision <= after.revision
    && (before.revision == after.revision ==> Content(before) == Content(after))
  }

  ghost predicate CapturedInv(b: Board) {
    forall id, base :: (id, base) in b.captured ==> id in b.minted && (id in b.scenes ==> Tracks(base, b.scenes[id]))
  }

  ghost predicate NamesInv(b: Board) {
    && b.scenes.Keys <= b.minted
    && b.clips.Keys <= b.minted
    && b.files.Keys <= b.minted
    && (forall id :: id in b.clipOf ==> b.clipOf[id] in b.minted)
    && forall id :: id in b.scenes && b.scenes[id].renderPath.Some? ==> b.scenes[id].renderPath.value in b.minted
  }

  /** Approval is pinned to a revision, and no scene is ready to render while it
      has a mismatch nobody acknowledged. */
  ghost predicate Reviewed(world: World, scene: Scene) {
    && (scene.status.Approved? ==> scene.approvedRevision.Some?)
    && (scene.approvedRevision.Some? ==> scene.approvedRevision.value <= scene.revision)
    && (scene.RenderReady() ==> !Unacknowledged(world, scene))
  }

  ghost predicate ReviewInv(world: World, b: Board) {
    forall id :: id in b.scenes ==> Reviewed(world, b.scenes[id])
  }

  /** A scene's render file holds what its stored hash says, and the clip last
      handed out for it serves that file. */
  ghost predicate RenderInv(b: Board) {
    forall id :: id in b.scenes && b.scenes[id].rendered.Some? ==> Served(b, id)
  }

  ghost predicate Served(b: Board, id: Id)
    requires id in b.scenes && b.scenes[id].rendered.Some?
  {
    && b.scenes[id].renderPath.Some?
    && var path := b.scenes[id].renderPath.value;
    && (path in b.files ==> b.files[path] == b.scenes[id].rendered.value)
    && (HasClip(b, id) ==> b.clips[b.clipOf[id]] == path)
  }

  /** The order is well formed, everything on it or inside a chain exists, and
      chain entries are not candidates themselves. */
  ghost predicate OrderInv(b: Board) {
    && WellOrdered(b.order, b.members)
    && (forall id :: id in b.order ==> id in b.scenes)
    && (forall c, x :: c in b.members && x in b.members[c] ==> x in b.scenes)
    && (forall c :: c in b.members ==> c in b.scenes && b.scenes[c].candidate.None?)
  }

  /** On the storyboard, or inside one of its chains. */
  ghost predicate Shown(b: Board, id: Id) {
    id in b.order || exists c :: c in b.members && id in b.members[c]
  }

  ghost predicate NoOrphans(b: Board) {
    forall id :: id in b.scenes ==> Shown(b, id)
  }

  ghost predicate Inv(world: World, b: Board) {
    CapturedInv(b) && NamesInv(b) && ReviewInv(world, b) && RenderInv(b) && OrderInv(b) && NoOrphans(b)
  }

  /** Revisions never go back, equal revisions mean equal content, and an id that
      is gone stays gone. */
  ghost predicate Evolves(b: Board, n: Board) {
    && b.minted <= n.minted
    && (forall id :: id in b.scenes && id in n.scenes ==> Tracks(b.scenes[id], n.scenes[id]))
    && (forall id :: id in n.scenes && id !in b.scenes ==> id !in b.minted)
  }

  /** The one step the protocol does not check: what a retry replaces should have
      the content the retry stores. */
  predicate SameAsStored(b: Board, id: Id, assembled: Scene) {
    id in b.scenes && Content(b.scenes[id]) == Content(assembled)
  }

  predicate Guarded(b: Board, e: Event) {
    e.Retry? ==> SameAsStored(b, e.id, e.assembled)
  }

  // ----- steps that leave places or scenes alone -----

  /** Copies in flight stay behind scenes that only evolve. */
  lemma CapturedFollows(b: Board, n: Board)
    requires CapturedInv(b) && Evolves(b, n) && n.captured == b.captured
    ensures CapturedInv(n)
  {
    hide Content;
    forall id, base | (id, base) in n.captured
      ensures id in n.minted && (id in n.scenes ==> Tracks(base, n.scenes[id]))
    {
      assert id in b.minted;
    }
  }

  lemma SamePlaces(b: Board, n: Board)
    requires OrderInv(b) && NoOrphans(b)
    requires n.order == b.order && n.members == b.members && n.scenes.Keys == b.scenes.Keys
    requires forall id :: id in b.scenes ==> n.scenes[id].candidate == b.scenes[id].candidate
    ensures OrderInv(n) && NoOrphans(n)
  {
    hide WellOrdered;
    forall id | id in n.scenes
      ensures Shown(n, id)
    {
      assert Shown(b, id);
    }
  }

  lemma SameScenes(world: World, b: Board, n: Board)
    requires ReviewInv(world, b) && OrderInv(b) && NoOrphans(b)
    requires n.scenes == b.scenes && n.order == b.order && n.members == b.members && b.minted <= n.minted
    ensures ReviewInv(world, n) && OrderInv(n) && NoOrphans(n) && Evolves(b, n)
  {
    hide Reviewed, OrderInv, NoOrphans, Content;
    SamePlaces(b, n);
  }

  lemma SameServing(b: Board, n: Board)
    requires RenderInv(b)
    requires n.scenes == b.scenes && n.clipOf == b.clipOf && n.clips == b.clips && n.files == b.files
    ensures RenderInv(n)
  {
    forall x | x in n.scenes && n.scenes[x].rendered.Some?
      ensures Served(n, x)
    {
      assert Served(b, x);
    }
  }

  lemma CaptureKeeps(world: World, b: Board, e: Event)
    requires Inv(world, b) && (e.Read? || e.Claim? || e.Release? || e.Forget?)
    ensures Inv(world, Next(world, b, e)) && Evolves(b, Next(world, b, e))
  {
    hide ReviewInv, RenderInv, OrderInv, NoOrphans, Content, NamesInv;
    var n := Next(world, b, e);
    CaptureFrame(world, b, e);
    SameScenes(world, b, n);
    SameServing(b, n);
    forall id, base | (id, base) in n.captured
      ensures id in n.minted && (id in n.scenes ==> Tracks(base, n.scenes[id]))
    {
      assert (id, base) in b.captured || (id in b.scenes && base == b.scenes[id]);
    }
  }

  lemma CaptureFrame(world: World, b: Board, e: Event)
    requires e.Read? || e.Claim? || e.Release? || e.Forget?
    requires NamesInv(b)
    ensures var n := Next(world, b, e);
            n == b.(rendering := n.rendering, claims := n.claims, captured := n.captured) && NamesInv(n)
  {
  }

  // ----- one compare-and-swap write -----

  ghost predicate IsRequest(e: Event) {
    e.Edit? || e.Approve? || e.Reject? || e.Acknowledge?
  }

  lemma SameContentSameFields(a: Scene, b: Scene)
    requires Content(a) == Content(b)
    ensures a.Key() == b.Key() && a.params == b.params && a.grade == b.grade && a.stated == b.stated
    ensures a.acknowledged == b.acknowledged && a.status == b.status && a.revision == b.revision
    ensures a.template == b.template && a.approvedRevision == b.approvedRevision && a.candidate == b.candidate
  {
    var x, y := Content(a), Content(b);
    assert a.Key() == x.Key() && b.Key() == y.Key();
    assert a.params == x.params && a.grade == x.grade && a.stated == x.stated && a.acknowledged == x.acknowledged
           && a.status == x.status && a.revision == x.revision && a.template == x.template
           && a.approvedRevision == x.approvedRevision && a.candidate == x.candidate;
  }

  /** A planned write on the very content it was planned from. */
  lemma WriteKeepsReview(world: World, e: Event, cur: Scene)
    requires IsRequest(e) && Plan(world, e).Ok?
    requires Content(e.base) == Content(cur) && Reviewed(world, cur)
    ensures
      var w := Plan(world, e).value;
      var now := Updated(cur, w.updates, if w.bump then e.base.revision + 1 else e.base.revision);
      && Reviewed(world, now) && Tracks(cur, now)
      && now.renderPath == cur.renderPath && now.rendered == cur.rendered
  {
    SameContentSameFields(e.base, cur);
  }

  /** Replacing one scene by one that tracks it keeps everything, if it keeps the
      render bookkeeping or drops it. */
  lemma ReplaceKeeps(world: World, b: Board, id: Id, now: Scene)
    requires Inv(world, b) && id in b.scenes
    requires Tracks(b.scenes[id], now) && Reviewed(world, now)
    requires (now.renderPath == b.scenes[id].renderPath && now.rendered == b.scenes[id].rendered)
             || (now.renderPath.None? && now.rendered.None?)
    ensures
      var n := b.(scenes := b.scenes[id := now]);
      Inv(world, n) && Evolves(b, n)
  {
    hide Reviewed, Content, CapturedInv, RenderInv, OrderInv, NoOrphans, NamesInv;
    var n := b.(scenes := b.scenes[id := now]);
    ReplaceServes(b, id, now);
    SamePlaces(b, n);
    CapturedFollows(b, n);
  }

  lemma ReplaceServes(b: Board, id: Id, now: Scene)
    requires RenderInv(b) && NamesInv(b) && id in b.scenes
    requires (now.renderPath == b.scenes[id].renderPath && now.rendered == b.scenes[id].rendered)
             || (now.renderPath.None? && now.rendered.None?)
    ensures
      var n := b.(scenes := b.scenes[id := now]);
      RenderInv(n) && NamesInv(n)
  {
    var n := b.(scenes := b.scenes[id := now]);
    forall x | x in n.scenes && n.scenes[x].rendered.Some?
      ensures Served(n, x)
    {
      assert Served(b, x);
    }
  }

  lemma RequestKeeps(world: World, b: Board, e: Event)
    requires Inv(world, b) && Enabled(b, e) && IsRequest(e)
    ensures Inv(world, Next(world, b, e)) && Evolves(b, Next(world, b, e))
  {
    hide Reviewed, NamesInv, RenderInv, OrderInv, NoOrphans;
    var plan := Plan(world, e);
    if plan.Ok? && CasResult(b.scenes, b.order, e.id, e.base.revision, plan.value).Ok? {
      assert (e.id, e.base) in b.captured;
      assert Reviewed(world, b.scenes[e.id]);
      WriteKeepsReview(world, e, b.scenes[e.id]);
      var now := CasResult(b.scenes, b.order, e.id, e.base.revision, plan.value).value;
      ReplaceKeeps(world, b, e.id, now);
    }
  }

  lemma RetryKeeps(world: World, b: Board, e: Event)
    requires Inv(world, b) && Enabled(b, e) && e.Retry? && Guarded(b, e)
    ensures Inv(world, Next(world, b, e)) && Evolves(b, Next(world, b, e))
  {
    hide Inv;
    var now := e.assembled.(gradeOverridden := e.base.gradeOverridden);
    SameContentSameFields(b.scenes[e.id], e.assembled);
    assert Content(now) == Content(e.assembled);
    ReplaceKeeps(world, b, e.id, now);
  }

  /** What a request is answered with. */
  function Answered(world: World, b: Board, e: Event): Result<Scene, Refusal>
    requires e.Edit? || e.Approve? || e.Reject? || e.Acknowledge?
  {
    var plan := Plan(world, e);
    if plan.Err? then Err(plan.error) else CasResult(b.scenes, b.order, e.id, e.base.revision, plan.value)
  }

  /** Whether the scene is there, and as the request read it. */
  function Found(b: Board, id: Id, base: Scene): Option<Refusal> {
    if id !in b.scenes || id !in b.order then Some(NotFound)
    else if b.scenes[id].revision != base.revision then Some(Conflict)
    else None
  }

  /** The answer that the scene's template computes differs from the stated one. */
  predicate Disputed(world: World, scene: Scene) {
    && scene.stated.Some? && scene.template.Some?
    && (var computed := world.answers(RenderKey(scene.template, scene.params, |scene.chainOf| > 0));
        computed != None && computed != scene.stated)
  }

  predicate ProperGrade(grade: Option<int>) {
    grade.None? || 0 <= grade.value <= 8
  }

  /** An edit is refused without a template, for a grade out of range, or when the
      scene is gone or has moved on. Otherwise it stores the values asked for; if they
      change the scene, its revision goes up, the acknowledgement is dropped, and a
      decision taken on it is open again. */
  lemma EditAnswer(world: World, b: Board, e: Event)
    requires Inv(world, b) && Enabled(b, e) && e.Edit?
    ensures
      var r, found := Answered(world, b, e), Found(b, e.id, e.base);
      if e.base.template.None? then r == Err(BadRequest)
      else if !ProperGrade(e.grade) then r == Err(Unprocessable)
      else if found.Some? then r == Err(found.value)
      else
        var cur := b.scenes[e.id];
        var params := if e.params.Some? then e.params.value else cur.params;
        var grade := if e.grade.Some? then e.grade.value else cur.grade;
        var asked := cur.(params := params, grade := grade, gradeOverridden := e.base.gradeOverridden || e.grade.Some?);
        r == Ok(if params == cur.params && grade == cur.grade then asked
                else asked.(status := if cur.status in {Approved, Rejected} then PendingReview else cur.status,
                     acknowledged := false, revision := cur.revision + 1))
    ensures Next(world, b, e) == var r := Answered(world, b, e); if r.Ok? then b.(scenes := b.scenes[e.id := r.value]) else b
  {
    assert (e.id, e.base) in b.captured;
    if e.id in b.scenes && b.scenes[e.id].revision == e.base.revision {
      SameContentSameFields(e.base, b.scenes[e.id]);
    }
    hide Inv;
  }

  lemma DisputedIff(world: World, scene: Scene)
    ensures Disputed(world, scene) <==> Mismatch(world, scene)
  {
    assert |scene.chainOf| > 0 <==> scene.chainOf != [];
    assert scene.Key() == RenderKey(scene.template, scene.params, |scene.chainOf| > 0);
  }

  /** The decision a request asks for, under a new revision; an approval keeps the
      revision it is for. */
  function Decided(e: Event, cur: Scene): Scene {
    var next := cur.(revision := cur.revision + 1);
    if e.Approve? then next.(status := Approved, approvedRevision := Some(cur.revision + 1))
    else if e.Reject? then next.(status := Rejected)
    else next.(acknowledged := true)
  }

  /** Approving is refused for a dispute nobody acknowledged, acknowledging when there
      is none, and all three when the scene is gone or has moved on. Otherwise the
      decision is stored, of a scene as the request read it. */
  lemma ReviewAnswer(world: World, b: Board, e: Event)
    requires Inv(world, b) && Enabled(b, e) && (e.Approve? || e.Reject? || e.Acknowledge?)
    ensures
      Answered(world, b, e)
      == if e.Approve? && Disputed(world, e.base) && !e.base.acknowledged then Err(Conflict)
      else if e.Acknowledge? && !Disputed(world, e.base) then Err(Conflict)
      else if Found(b, e.id, e.base).Some? then Err(Found(b, e.id, e.base).value)
      else Ok(Decided(e, b.scenes[e.id]))
    ensures Found(b, e.id, e.base).None? ==>
              Disputed(world, b.scenes[e.id]) == Disputed(world, e.base) && b.scenes[e.id].acknowledged == e.base.acknowledged
    ensures Next(world, b, e) == var r := Answered(world, b, e); if r.Ok? then b.(scenes := b.scenes[e.id := r.value]) else b
  {
    DisputedIff(world, e.base);
    assert (e.id, e.base) in b.captured;
    if Found(b, e.id, e.base).None? {
      SameContentSameFields(e.base, b.scenes[e.id]);
    }
    hide Inv, Mismatch, Enabled;
  }

  /** What a committed edit leaves: the requested values; a change of content
      revokes approval, rejection and acknowledgement under a new revision, while
      resending what is there keeps a standing approval. */
  lemma EditOutcome(world: World, b: Board, e: Event)
    requires Inv(world, b) && Enabled(b, e) && e.Edit? && Plan(world, e).Ok?
    requires CasResult(b.scenes, b.order, e.id, e.base.revision, Plan(world, e).value).Ok?
    ensures
      var cur, now := b.scenes[e.id], Next(world, b, e).scenes[e.id];
      && now.params == Or(e.params, cur.params) && now.grade == Or(e.grade, cur.grade)
      && (now.params != cur.params || now.grade != cur.grade ==>
            && now.revision == cur.revision + 1 && !now.RenderReady() && !now.acknowledged
            && !now.status.Approved? && !now.status.Rejected?)
      && (now.params == cur.params && now.grade == cur.grade ==>
            Content(now) == Content(cur) && (cur.RenderReady() ==> now.RenderReady()))
  {
    assert (e.id, e.base) in b.captured;
    SameContentSameFields(e.base, b.scenes[e.id]);
  }

  /** A committed approval makes exactly the approved content ready to render; an
      acknowledgement or a rejection leaves the scene not ready. */
  lemma ReviewOutcome(world: World, b: Board, e: Event)
    requires Inv(world, b) && Enabled(b, e) && (e.Approve? || e.Reject? || e.Acknowledge?) && Plan(world, e).Ok?
    requires CasResult(b.scenes, b.order, e.id, e.base.revision, Plan(world, e).value).Ok?
    ensures
      var cur, now := b.scenes[e.id], Next(world, b, e).scenes[e.id];
      && now.revision == cur.revision + 1 && now.Key() == cur.Key() && now.stated == cur.stated
      && (e.Approve? ==> now.RenderReady() && now.approvedRevision == Some(now.revision) && !Unacknowledged(world, now))
      && (e.Reject? ==> now.status.Rejected? && now.acknowledged == cur.acknowledged)
      && (e.Acknowledge? ==> now.acknowledged && Mismatch(world, now) && now.status == cur.status && !now.RenderReady())
  {
    assert (e.id, e.base) in b.captured;
    SameContentSameFields(e.base, b.scenes[e.id]);
    assert Reviewed(world, b.scenes[e.id]);
    hide Inv, Enabled;
  }

  // ----- renders and evictions -----

  lemma PublishServes(b: Board, id: Id, base: Scene, path: Name, clip: Name)
    requires NamesInv(b) && RenderInv(b) && id in b.scenes
    requires path !in b.minted && clip !in b.minted && path != clip
    ensures RenderInv(Published(b, id, base, path, clip)) && NamesInv(Published(b, id, base, path, clip))
  {
    var n := Published(b, id, base, path, clip);
    forall x | x in n.scenes && n.scenes[x].rendered.Some?
      ensures Served(n, x)
    {
      if x != id {
        assert Served(b, x);
      }
    }
  }

  lemma PublishReviews(world: World, b: Board, id: Id, base: Scene, path: Name, clip: Name)
    requires ReviewInv(world, b) && id in b.scenes
    ensures
      var n := Published(b, id, base, path, clip);
      ReviewInv(world, n) && Evolves(b, n)
  {
    var n := Published(b, id, base, path, clip);
    assert Tracks(b.scenes[id], n.scenes[id]);
    assert Reviewed(world, b.scenes[id]) && b.scenes[id].Key() == n.scenes[id].Key();
    forall x | x in n.scenes
      ensures Reviewed(world, n.scenes[x])
    {
      assert x != id ==> Reviewed(world, b.scenes[x]) && n.scenes[x] == b.scenes[x];
    }
  }

  lemma PublishedKeeps(world: World, b: Board, id: Id, base: Scene, path: Name, clip: Name)
    requires Inv(world, b) && id in b.scenes
    requires path !in b.minted && clip !in b.minted && path != clip
    ensures Inv(world, Published(b, id, base, path, clip)) && Evolves(b, Published(b, id, base, path, clip))
  {
    hide NamesInv, RenderInv, ReviewInv, OrderInv, CapturedInv, NoOrphans, Evolves;
    var n := Published(b, id, base, path, clip);
    PublishServes(b, id, base, path, clip);
    PublishReviews(world, b, id, base, path, clip);
    SamePlaces(b, n);
    CapturedFollows(b, n);
  }

  lemma Stays(b: Board)
    ensures Evolves(b, b)
  {
  }

  lemma PublishKeeps(world: World, b: Board, e: Event)
    requires Inv(world, b) && Enabled(b, e) && e.Publish?
    ensures Inv(world, Next(world, b, e)) && Evolves(b, Next(world, b, e))
  {
    hide Inv, Evolves, Published;
    Stays(b);
    if e.found && StillCurrent(b.scenes, e.id, e.base) {
      PublishedKeeps(world, b, e.id, e.base, e.path, e.clip);
    }
  }

  lemma ReregisterServes(b: Board, id: Id, clip: Name)
    requires NamesInv(b) && RenderInv(b) && clip !in b.minted
    requires id in b.scenes && b.scenes[id].renderPath.Some?
    ensures RenderInv(Reregistered(b, id, clip)) && NamesInv(Reregistered(b, id, clip))
  {
    var n := Reregistered(b, id, clip);
    forall x | x in n.scenes && n.scenes[x].rendered.Some?
      ensures Served(n, x)
    {
      assert Served(b, x);
    }
  }

  lemma EvictServes(b: Board, lostClips: set<Name>, lostFiles: set<Name>)
    requires NamesInv(b) && RenderInv(b)
    ensures
      var n := b.(clips := b.clips - lostClips, files := b.files - lostFiles);
      RenderInv(n) && NamesInv(n)
  {
    var n := b.(clips := b.clips - lostClips, files := b.files - lostFiles);
    forall x | x in n.scenes && n.scenes[x].rendered.Some?
      ensures Served(n, x)
    {
      assert Served(b, x);
    }
  }

  lemma ReuseKeeps(world: World, b: Board, e: Event)
    requires Inv(world, b) && Enabled(b, e) && (e.Reuse? || e.Evict?)
    ensures Inv(world, Next(world, b, e)) && Evolves(b, Next(world, b, e))
  {
    hide RenderInv, NamesInv, ReviewInv, OrderInv, CapturedInv, NoOrphans, Evolves, HasClip;
    var n := Next(world, b, e);
    if e.Reuse? && e.found && Reusable(b, e.id, e.base) && !HasClip(b, e.id) {
      ReregisterServes(b, e.id, e.clip);
    } else if e.Evict? {
      EvictServes(b, e.lostClips, e.lostFiles);
    }
    SameScenes(world, b, n);
    CapturedFollows(b, n);
  }

  // ----- steps that change the order -----

  lemma DistinctIds(ids: seq<Id>)
    requires AllDistinct(ids)
    ensures NoDup(ids)
  {
    forall x
      ensures multiset(ids)[x] <= 1
    {
      if multiset(ids)[x] > 1 {
        var i, j := TwoPlaces(ids, x);
      }
    }
  }

  lemma ExpandedExists(b: Board, x: Id)
    requires OrderInv(b) && x in Expand(b.order, b.members)
    ensures x in b.scenes
  {
    var c := EntryOf(b.order, b.members, x);
  }

  lemma {:induction false} EntryOf(order: seq<Id>, members: Members, x: Id) returns (c: Id)
    requires x in Expand(order, members)
    ensures c in order && x in Entry(c, members)
  {
    if x in Entry(order[0], members) {
      c := order[0];
    } else {
      c := EntryOf(order[1..], members, x);
    }
  }

  lemma ChosenArePlain(world: World, b: Board, ids: seq<Id>, bases: seq<Scene>)
    requires OrderInv(b) && CombineAllowed(world, b.scenes, b.order, ids, bases)
    ensures IdSet(ids) != {} && IdSet(ids) !! b.members.Keys && forall x :: x in IdSet(ids) ==> x in b.order
  {
    hide WellOrdered, Unacknowledged;
    forall x | x in IdSet(ids)
      ensures x in b.order && x !in b.members
    {
      var k :| 0 <= k < |ids| && ids[k] == x;
      assert Combinable(world, b.scenes, b.order, ids[k], bases[k], bases[0].template);
    }
    assert ids[0] in IdSet(ids);
  }

  lemma CombinedOrder(b: Board, ids: set<Id>, chain: Id, scene: Scene)
    requires OrderInv(b) && NamesInv(b) && chain !in b.minted && scene.candidate.None?
    requires ids != {} && ids !! b.members.Keys && forall x :: x in ids ==> x in b.order
    ensures OrderInv(Combined(b, ids, chain, scene))
    ensures var n := Combined(b, ids, chain, scene);
            Expand(n.order, n.members) == Gather(Expand(b.order, b.members), ids)
  {
    hide WellOrdered, Expand, Gather, Chained, Filter;
    var n := Combined(b, ids, chain, scene);
    var some :| some in ids;
    if chain in Expand(b.order, b.members) {
      ExpandedExists(b, chain);
    }
    ChainKeepsOrder(b.order, b.members, n.members, ids, chain);
    ChainedMembership(b.order, ids, chain, some);
    FilterMembers(b.order, ids, true);
  }

  lemma CombinedShows(b: Board, ids: set<Id>, chain: Id, scene: Scene)
    requires OrderInv(b) && NamesInv(b) && NoOrphans(b) && chain !in b.minted
    requires ids != {} && forall x :: x in ids ==> x in b.order
    ensures NoOrphans(Combined(b, ids, chain, scene))
  {
    hide WellOrdered, Chained, Filter;
    var n := Combined(b, ids, chain, scene);
    var some :| some in ids;
    ChainedMembership(b.order, ids, chain, some);
    FilterMembers(b.order, ids, true);
    forall x | x in n.scenes
      ensures Shown(n, x)
    {
      if x != chain {
        assert Shown(b, x);
        if x in ids {
          assert chain in n.members && x in n.members[chain];
        } else if x !in b.order {
          var c :| c in b.members && x in b.members[c];
          assert c in n.members && x in n.members[c];
        }
      }
    }
  }

  lemma CombineKeeps(world: World, b: Board, e: Event)
    requires Inv(world, b) && Enabled(b, e) && e.Combine?
    ensures Inv(world, Next(world, b, e)) && Evolves(b, Next(world, b, e))
  {
    hide CombineAllowed, NamesInv, CapturedInv, ReviewInv, RenderInv, OrderInv, NoOrphans, Evolves;
    Stays(b);
    if e.preview && CombineAllowed(world, b.scenes, b.order, e.chosen, e.bases) {
      ChosenArePlain(world, b, e.chosen, e.bases);
      var ids, scene := IdSet(e.chosen), ChainScene(e.bases, e.chainParams);
      CombinedOrder(b, ids, e.chain, scene);
      CombinedShows(b, ids, e.chain, scene);
      AddKeeps(world, b, e.chain, scene, Combined(b, ids, e.chain, scene));
    }
  }

  /** A scene under a new name that has been neither reviewed nor rendered. */
  lemma AddKeeps(world: World, b: Board, id: Id, scene: Scene, n: Board)
    requires CapturedInv(b) && NamesInv(b) && ReviewInv(world, b) && RenderInv(b) && id !in b.minted
    requires scene.approvedRevision.None? && !scene.status.Approved? && scene.rendered.None? && scene.renderPath.None?
    requires n == b.(scenes := b.scenes[id := scene], order := n.order, members := n.members, minted := b.minted + {id})
    ensures CapturedInv(n) && NamesInv(n) && ReviewInv(world, n) && RenderInv(n) && Evolves(b, n)
  {
    hide Unacknowledged;
  }

  lemma UngroupKeeps(world: World, b: Board, e: Event)
    requires Inv(world, b) && e.Ungroup?
    ensures Inv(world, Next(world, b, e)) && Evolves(b, Next(world, b, e))
    ensures var n := Next(world, b, e); Expand(n.order, n.members) == Expand(b.order, b.members)
  {
    hide Expand, Ungrouped, NamesInv, CapturedInv, ReviewInv, RenderInv, OrderInv, NoOrphans, Evolves;
    Stays(b);
    if e.id in b.members && e.id in b.order {
      UngroupedFrame(world, b, e.id);
      UngroupedOrder(b, e.id);
      UngroupedShows(b, e.id);
      CapturedFollows(b, Ungrouped(b, e.id));
    }
  }

  lemma UngroupedFrame(world: World, b: Board, id: Id)
    requires NamesInv(b) && ReviewInv(world, b) && RenderInv(b) && id in b.members && id in b.order
    ensures
      var n := Ungrouped(b, id);
      n.captured == b.captured && NamesInv(n) && ReviewInv(world, n) && RenderInv(n) && Evolves(b, n)
  {
    hide Reviewed, Unchained;
    var n := Ungrouped(b, id);
    forall x | x in n.scenes && n.scenes[x].rendered.Some?
      ensures Served(n, x)
    {
      assert Served(b, x);
    }
  }

  lemma UngroupedOrder(b: Board, id: Id)
    requires OrderInv(b) && id in b.members && id in b.order
    ensures
      var n := Ungrouped(b, id);
      OrderInv(n) && Expand(n.order, n.members) == Expand(b.order, b.members)
  {
    hide Expand;
    var n := Ungrouped(b, id);
    UngroupKeepsOrder(b.order, b.members, n.members, id);
    UngroupKeepsExpansion(b.order, b.members, n.members, id);
    UngroupedExist(b, n, id);
  }

  lemma UngroupedExist(b: Board, n: Board, id: Id)
    requires OrderInv(b) && id in b.members && id in b.order && n == Ungrouped(b, id)
    requires WellOrdered(n.order, n.members)
    ensures OrderInv(n)
  {
    OrderNoDup(b.order, b.members);
    var i := IndexOf(b.order, id);
    Distinct(b.order, i);
    forall x | x in n.order
      ensures x in n.scenes
    {
      assert x in b.order[..i] || x in b.members[id] || x in b.order[i + 1..];
      if x in b.members[id] {
        MembersOffOrder(b.order, b.members, id, x);
      }
    }
    forall c, x | c in n.members && x in n.members[c]
      ensures x in n.scenes
    {
      MembersOffOrder(b.order, b.members, c, x);
    }
  }

  lemma UnchainedMembership(order: seq<Id>, chain: Id, inner: seq<Id>, x: Id)
    requires chain in order && x != chain && (x in order || x in inner)
    ensures x in Unchained(order, chain, inner)
  {
    var i := IndexOf(order, chain);
    assert order == order[..i] + [chain] + order[i + 1..];
  }

  lemma UngroupedShows(b: Board, id: Id)
    requires NoOrphans(b) && id in b.members && id in b.order
    ensures NoOrphans(Ungrouped(b, id))
  {
    hide Unchained;
    var n := Ungrouped(b, id);
    forall x | x in n.scenes
      ensures Shown(n, x)
    {
      assert Shown(b, x);
      if x in b.order || x in b.members[id] {
        UnchainedMembership(b.order, id, b.members[id], x);
      } else {
        var c :| c in b.members && x in b.members[c];
        assert c in n.members && x in n.members[c];
      }
    }
  }

  lemma PlaceKeeps(world: World, b: Board, e: Event)
    requires Inv(world, b) && Enabled(b, e) && e.Place?
    ensures Inv(world, Next(world, b, e)) && Evolves(b, Next(world, b, e))
  {
    hide NamesInv, CapturedInv, ReviewInv, RenderInv, OrderInv, NoOrphans, Evolves;
    PlacedOrder(b, e.id, e.scene);
    AddKeeps(world, b, e.id, e.scene, Placed(b, e.id, e.scene));
  }

  lemma PlacedOrder(b: Board, id: Id, scene: Scene)
    requires OrderInv(b) && NamesInv(b) && NoOrphans(b) && id !in b.minted
    ensures OrderInv(Placed(b, id, scene)) && NoOrphans(Placed(b, id, scene))
  {
    hide Expand;
    var n := Placed(b, id, scene);
    ExpandConcat(b.order, [id], b.members);
    ExpandPlain([id], b.members);
    if id in Expand(b.order, b.members) {
      ExpandedExists(b, id);
    }
    forall x | x in n.scenes
      ensures Shown(n, x)
    {
      assert x != id ==> Shown(b, x);
    }
  }

  lemma ClearKeeps(world: World, b: Board)
    requires Inv(world, b)
    ensures Inv(world, Next(world, b, Clear)) && Evolves(b, Next(world, b, Clear))
  {
  }

  /** Every step keeps the session invariant, a retry when it stores the content
      that is there. */
  lemma StepKeeps(world: World, b: Board, e: Event)
    requires Inv(world, b) && Enabled(b, e) && Guarded(b, e)
    ensures Inv(world, Next(world, b, e)) && Evolves(b, Next(world, b, e))
  {
    hide *;
    match e {
      case Combine(_, _, _, _, _) => CombineKeeps(world, b, e);
      case Ungroup(_) => UngroupKeeps(world, b, e);
      case Publish(_, _, _, _, _) => PublishKeeps(world, b, e);
      case Reuse(_, _, _, _) => ReuseKeeps(world, b, e);
      case Evict(_, _) => ReuseKeeps(world, b, e);
      case Retry(_, _, _) => RetryKeeps(world, b, e);
      case Place(_, _) => PlaceKeeps(world, b, e);
      case Clear => ClearKeeps(world, b);
      case Read(_) => CaptureKeeps(world, b, e);
      case Claim => CaptureKeeps(world, b, e);
      case Release(_) => CaptureKeeps(world, b, e);
      case Forget(_, _) => CaptureKeeps(world, b, e);
      case _ => IsARequest(e); RequestKeeps(world, b, e);
    }
  }

  lemma IsARequest(e: Event)
    requires e.Edit? || e.Approve? || e.Reject? || e.Acknowledge?
    ensures IsRequest(e)
  {
  }

  // ----- whole runs -----

  ghost predicate Run(world: World, boards: seq<Board>, events: seq<Event>) {
    && |boards| == |events| + 1 && boards[0] == EMPTY
    && forall k :: 0 <= k < |events| ==> Enabled(boards[k], events[k]) && boards[k + 1] == Next(world, boards[k], events[k])
  }

  /** A run in which every retry stores what is there. */
  ghost predicate GuardedRun(world: World, boards: seq<Board>, events: seq<Event>) {
    Run(world, boards, events) && forall k :: 0 <= k < |events| ==> Guarded(boards[k], events[k])
  }

  lemma {:induction false} RunKeeps(world: World, boards: seq<Board>, events: seq<Event>, k: nat)
    requires GuardedRun(world, boards, events) && k < |boards|
    ensures Inv(world, boards[k])
  {
    hide Next, Enabled, Guarded, Inv;
    if k == 0 {
      EmptyInv(world);
    } else {
      RunKeeps(world, boards, events, k - 1);
      StepKeeps(world, boards[k - 1], events[k - 1]);
    }
  }

  lemma EmptyInv(world: World)
    ensures Inv(world, EMPTY)
  {
  }

  lemma EvolvesTransitive(a: Board, b: Board, c: Board)
    requires NamesInv(a) && Evolves(a, b) && Evolves(b, c)
    ensures Evolves(a, c)
  {
    hide Content;
  }

  lemma {:induction false} RunEvolves(world: World, boards: seq<Board>, events: seq<Event>, i: nat, j: nat)
    requires GuardedRun(world, boards, events) && i <= j < |boards|
    ensures Evolves(boards[i], boards[j])
    decreases j - i
  {
    hide Next, Enabled, Guarded, CapturedInv, NamesInv, ReviewInv, RenderInv, OrderInv, NoOrphans, Evolves;
    RunKeeps(world, boards, events, i);
    if i < j {
      RunEvolves(world, boards, events, i, j - 1);
      RunKeeps(world, boards, events, j - 1);
      StepKeeps(world, boards[j - 1], events[j - 1]);
      EvolvesTransitive(boards[i], boards[j - 1], boards[j]);
    } else {
      Stays(boards[i]);
    }
  }

  /** A scene id with its revision determines params, acknowledgement, status and
      approval, at any two moments of a run. */
  lemma RevisionDeterminesContent(world: World, boards: seq<Board>, events: seq<Event>, i: nat, j: nat, id: Id)
    requires GuardedRun(world, boards, events) && i < |boards| && j < |boards|
    requires id in boards[i].scenes && id in boards[j].scenes
    requires boards[i].scenes[id].revision == boards[j].scenes[id].revision
    ensures Content(boards[i].scenes[id]) == Content(boards[j].scenes[id])
  {
    hide GuardedRun;
    if i <= j {
      RunEvolves(world, boards, events, i, j);
    } else {
      RunEvolves(world, boards, events, j, i);
    }
  }

  /** No scene is ever ready to render with a mismatch nobody acknowledged. */
  lemma ReadyMeansAcknowledged(world: World, boards: seq<Board>, events: seq<Event>, k: nat, id: Id)
    requires GuardedRun(world, boards, events) && k < |boards|
    requires id in boards[k].scenes && boards[k].scenes[id].RenderReady()
    ensures !Unacknowledged(world, boards[k].scenes[id])
    ensures boards[k].scenes[id].approvedRevision == Some(boards[k].scenes[id].revision)
  {
    hide GuardedRun;
    RunKeeps(world, boards, events, k);
    assert Reviewed(world, boards[k].scenes[id]);
  }

  /** A step that answers a render with a clip. */
  predicate HandsOut(b: Board, e: Event) {
    || (e.Publish? && e.found && StillCurrent(b.scenes, e.id, e.base))
    || (e.Reuse? && Reusable(b, e.id, e.base) && (e.found || HasClip(b, e.id)))
  }

  /** The clip of a scene serves a file rendered from what the scene holds. */
  predicate ClipIsCurrent(b: Board, id: Id) {
    && id in b.scenes && HasClip(b, id)
    && b.clips[b.clipOf[id]] in b.files
    && b.files[b.clips[b.clipOf[id]]] == b.scenes[id].Key()
  }

  lemma PublishIsCurrent(world: World, b: Board, e: Event)
    requires CapturedInv(b) && Enabled(b, e) && e.Publish? && HandsOut(b, e)
    ensures ClipIsCurrent(Next(world, b, e), e.id)
  {
    assert Tracks(e.base, b.scenes[e.id]);
    SameContentSameFields(e.base, b.scenes[e.id]);
    assert Next(world, b, e) == Published(b, e.id, e.base, e.path, e.clip);
  }

  lemma ReuseIsCurrent(world: World, b: Board, e: Event)
    requires CapturedInv(b) && RenderInv(b) && Enabled(b, e) && e.Reuse? && HandsOut(b, e)
    ensures ClipIsCurrent(Next(world, b, e), e.id)
  {
    assert Tracks(e.base, b.scenes[e.id]);
    SameContentSameFields(e.base, b.scenes[e.id]);
    assert Served(b, e.id);
    assert Next(world, b, e) == if HasClip(b, e.id) then b else Reregistered(b, e.id, e.clip);
  }

  /** Every clip handed out, freshly rendered or cached, serves a file rendered
      from what the scene holds at that moment. */
  lemma HandedOutClipIsCurrent(world: World, boards: seq<Board>, events: seq<Event>, k: nat)
    requires GuardedRun(world, boards, events) && k < |events| && HandsOut(boards[k], events[k])
    ensures ClipIsCurrent(boards[k + 1], events[k].id)
  {
    hide Next, Enabled, Guarded, CapturedInv, NamesInv, ReviewInv, RenderInv, OrderInv, NoOrphans, ClipIsCurrent;
    var b, e := boards[k], events[k];
    RunKeeps(world, boards, events, k);
    if e.Publish? {
      PublishIsCurrent(world, b, e);
    } else {
      ReuseIsCurrent(world, b, e);
    }
  }

  /** Whatever is stored is on the storyboard or inside one of its chains. */
  lemma NothingIsOrphaned(world: World, boards: seq<Board>, events: seq<Event>, k: nat, id: Id)
    requires GuardedRun(world, boards, events) && k < |boards|
    ensures id in boards[k].scenes <==> Shown(boards[k], id)
  {
    hide GuardedRun;
    RunKeeps(world, boards, events, k);
    assert OrderInv(boards[k]);
  }

  // ----- batches claimed for rendering -----

  /** The scenes being rendered are those of the claimed batches, which share none. */
  ghost predicate ClaimInv(b: Board) {
    && (forall x, y :: x in b.claims && y in b.claims && x != y ==> x !! y)
    && (forall id :: id in b.rendering <==> exists x :: x in b.claims && id in x)
  }

  lemma ClaimKeeps(b: Board, ids: seq<Id>)
    requires ClaimInv(b) && forall id :: id in ids ==> id in b.scenes && id !in b.rendering
    ensures ClaimInv(Claimed(b, ids))
  {
    var n := Claimed(b, ids);
    forall x | x in b.claims
      ensures x !! IdSet(ids)
    {
      forall id | id in IdSet(ids)
        ensures id !in x
      {
        assert id !in b.rendering;
      }
    }
    forall id
      ensures id in n.rendering <==> exists x :: x in n.claims && id in x
    {
      if id in b.rendering {
        var x :| x in b.claims && id in x;
        assert x in n.claims;
      } else if id in IdSet(ids) {
        assert IdSet(ids) in n.claims;
      }
    }
  }

  lemma ReleaseKeeps(b: Board, n: Board, ids: set<Id>)
    requires ClaimInv(b) && ids in b.claims
    requires n.rendering == b.rendering - ids && n.claims == b.claims - {ids}
    ensures ClaimInv(n)
  {
    forall id
      ensures id in n.rendering <==> exists x :: x in n.claims && id in x
    {
      if id in n.rendering {
        var x :| x in b.claims && id in x;
        assert x in n.claims;
      }
    }
  }

  lemma OtherKeepsClaims(world: World, b: Board, e: Event)
    requires !e.Claim? && !e.Release?
    ensures Next(world, b, e).rendering == b.rendering && Next(world, b, e).claims == b.claims
  {
  }

  lemma StepKeepsClaims(world: World, b: Board, e: Event)
    requires ClaimInv(b) && Enabled(b, e)
    ensures ClaimInv(Next(world, b, e))
  {
    hide ClaimInv, Claimed;
    if e.Claim? {
      if ClaimResult(world, b).Ok? {
        ClaimKeeps(b, ClaimResult(world, b).value);
      }
    } else if e.Release? {
      ReleaseKeeps(b, Next(world, b, e), e.ids);
    } else {
      OtherKeepsClaims(world, b, e);
      SameClaims(b, Next(world, b, e));
    }
  }

  lemma SameClaims(b: Board, n: Board)
    requires ClaimInv(b) && n.rendering == b.rendering && n.claims == b.claims
    ensures ClaimInv(n)
  {
  }

  lemma {:induction false} RunKeepsClaims(world: World, boards: seq<Board>, events: seq<Event>, k: nat)
    requires Run(world, boards, events) && k < |boards|
    ensures ClaimInv(boards[k])
  {
    hide Next, Enabled, ClaimInv;
    if k == 0 {
      NothingClaimed();
    } else {
      RunKeepsClaims(world, boards, events, k - 1);
      StepKeepsClaims(world, boards[k - 1], events[k - 1]);
    }
  }

  lemma NothingClaimed()
    ensures ClaimInv(EMPTY)
  {
  }

  /** In every run, retries included, no scene is in two claimed batches at once,
      the scenes marked as rendering are exactly those of the claimed batches, and
      a claim that succeeds takes none of them. */
  lemma RenderedByOneBatch(world: World, boards: seq<Board>, events: seq<Event>, k: nat, id: Id)
    requires Run(world, boards, events) && k < |boards|
    ensures forall x, y :: x in boards[k].claims && y in boards[k].claims && id in x && id in y ==> x == y
    ensures id in boards[k].rendering <==> exists x :: x in boards[k].claims && id in x
    ensures k < |events| && events[k].Claim? && ClaimResult(world, boards[k]).Ok? && id in ClaimResult(world, boards[k]).value ==>
              && (forall x :: x in boards[k].claims ==> id !in x)
              && IdSet(ClaimResult(world, boards[k]).value) in boards[k + 1].claims
  {
    RunKeepsClaims(world, boards, events, k);
    hide ReadyIds;
    assert k < |events| ==> boards[k + 1] == Next(world, boards[k], events[k]);
  }

  ghost predicate KeepsPlaces(e: Event) {
    !e.Place? && !e.Clear?
  }

  /** Chains expanded, the storyboard stays a permutation of what it was, has no
      duplicates and names only scenes that exist. */
  lemma {:induction false} RunPermutes(world: World, boards: seq<Board>, events: seq<Event>, i: nat, j: nat)
    requires GuardedRun(world, boards, events) && i <= j < |boards|
    requires forall k :: i <= k < j ==> KeepsPlaces(events[k])
    ensures multiset(Expand(boards[j].order, boards[j].members)) == multiset(Expand(boards[i].order, boards[i].members))
    ensures OrderInv(boards[j]) && NoDup(boards[j].order)
    decreases j - i
  {
    hide Expand, Gather, Next, Enabled, Guarded, CapturedInv, NamesInv, ReviewInv, RenderInv, NoOrphans;
    RunKeeps(world, boards, events, j);
    OrderNoDup(boards[j].order, boards[j].members);
    if i < j {
      RunPermutes(world, boards, events, i, j - 1);
      RunKeeps(world, boards, events, j - 1);
      StepPermutes(world, boards[j - 1], events[j - 1]);
    }
  }

  lemma StepPermutes(world: World, b: Board, e: Event)
    requires Inv(world, b) && Enabled(b, e) && KeepsPlaces(e)
    ensures
      var n := Next(world, b, e);
      multiset(Expand(n.order, n.members)) == multiset(Expand(b.order, b.members))
  {
    hide Expand, Gather, CapturedInv, NamesInv, ReviewInv, RenderInv, OrderInv, NoOrphans, CombineAllowed, Combined, Ungrouped;
    if e.Combine? && e.preview && CombineAllowed(world, b.scenes, b.order, e.chosen, e.bases) {
      ChosenArePlain(world, b, e.chosen, e.bases);
      CombinedOrder(b, IdSet(e.chosen), e.chain, ChainScene(e.bases, e.chainParams));
      GatherIsStable(Expand(b.order, b.members), IdSet(e.chosen), true);
    } else if e.Ungroup? {
      UngroupKeeps(world, b, e);
    } else {
      OrderStays(world, b, e);
    }
  }

  lemma OrderStays(world: World, b: Board, e: Event)
    requires KeepsPlaces(e) && !e.Ungroup?
    requires e.Combine? ==> !e.preview || !CombineAllowed(world, b.scenes, b.order, e.chosen, e.bases)
    ensures Next(world, b, e).order == b.order && Next(world, b, e).members == b.members
  {
  }
}
