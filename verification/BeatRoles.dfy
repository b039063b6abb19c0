/** The role bookkeeping of the beat expander: a sparse map from target to role,
    where a part without an entry follows its whole visual, against what the
    renderer shows when it replays the emitted role actions part by part. */
module BeatRoles {
  import opened Collections
  import opened Outcomes

  type Ref = string
  type Part = string
  type Role = string

  const NEUTRAL: Role := "neutral"

  datatype Target = Target(visual: Ref, part: Option<Part>, index: Option<nat>) {
    predicate Whole() {
      part.None? && index.None?
    }

    function WholeOf(): Target {
      Target(visual, None, None)
    }
  }

  /** The declared visuals with their initial roles, and the parts each visual
      keeps out of its root group. */
  datatype Scene = Scene(initial: map<Ref, Role>, deferred: map<Ref, set<Part>>) {
    predicate Deferred(t: Target) {
      t.part.Some? && t.visual in deferred && t.part.value in deferred[t.visual]
    }

    predicate Declares(t: Target) {
      t.visual in initial
    }
  }

  /** A recolouring the renderer plays. */
  datatype SetRole = SetRole(target: Target, role: Role)

  // ----- what the renderer shows -----

  /** Recolouring a whole visual restyles each of its parts that is not deferred. */
  predicate Restyles(scene: Scene, acted: Target, t: Target) {
    acted == t || (acted.Whole() && acted.visual == t.visual && !scene.Deferred(t))
  }

  /** The role a part shows after these actions: that of the last one restyling it. */
  function Shown(scene: Scene, actions: seq<SetRole>, t: Target): Role
    requires scene.Declares(t)
  {
    if actions == [] then scene.initial[t.visual]
    else
      var last := actions[|actions| - 1];
      if Restyles(scene, last.target, t) then last.role else Shown(scene, actions[..|actions| - 1], t)
  }

  lemma ShownSnoc(scene: Scene, actions: seq<SetRole>, last: SetRole, t: Target)
    requires scene.Declares(t)
    ensures Shown(scene, actions + [last], t)
         == if Restyles(scene, last.target, t) then last.role else Shown(scene, actions, t)
  {
    assert (actions + [last])[..|actions|] == actions;
  }

  // ----- the bookkeeping -----

  /** `current` is the sparse role map, `previous` what dimming remembers. */
  datatype Roles = Roles(current: map<Target, Role>, previous: map<Target, Role>)

  function Start(scene: Scene): Roles {
    Roles(map r | r in scene.initial :: Target(r, None, None) := scene.initial[r], map[])
  }

  function CurrentRole(current: map<Target, Role>, t: Target): Option<Role> {
    if t in current then Some(current[t])
    else if t.WholeOf() in current then Some(current[t.WholeOf()])
    else None
  }

  predicate IsCleared(scene: Scene, acted: Target, t: Target) {
    acted.Whole() && t.visual == acted.visual && t != acted && !scene.Deferred(t)
  }

  function Assigned(scene: Scene, current: map<Target, Role>, t: Target, role: Role): map<Target, Role> {
    map k | k in current.Keys + {t} && !IsCleared(scene, t, k) :: if k == t then role else current[k]
  }

  datatype Request =
    | Change(target: Target, role: Role)
    | Emphasize(target: Target, role: Role)
    | Dim(target: Target)
    | Restore(target: Target)

  datatype Step = Step(roles: Roles, emitted: seq<SetRole>)

  /** A change emits nothing when the target already holds the role; the custom
      requests always emit. */
  function Perform(scene: Scene, roles: Roles, r: Request): Step
    requires scene.Declares(r.target)
  {
    var t := r.target;
    match r
    case Change(_, role) =>
      if CurrentRole(roles.current, t) == Some(role) then Step(roles, [])
      else Step(roles.(current := Assigned(scene, roles.current, t, role)), [SetRole(t, role)])
    case Emphasize(_, role) =>
      Step(roles.(current := Assigned(scene, roles.current, t, role)), [SetRole(t, role)])
    case Dim(_) =>
      var saved := if t in roles.current then roles.current[t] else scene.initial[t.visual];
      var previous := if t in roles.previous then roles.previous else roles.previous[t := saved];
      Step(Roles(Assigned(scene, roles.current, t, NEUTRAL), previous), [SetRole(t, NEUTRAL)])
    case Restore(_) =>
      var role := if t in roles.previous then roles.previous[t] else scene.initial[t.visual];
      Step(Roles(Assigned(scene, roles.current, t, role), roles.previous - {t}), [SetRole(t, role)])
  }

  predicate AllDeclared(scene: Scene, requests: seq<Request>) {
    forall r :: r in requests ==> scene.Declares(r.target)
  }

  /** A whole run of requests: the final bookkeeping and everything emitted. */
  function Play(scene: Scene, requests: seq<Request>): Step
    requires AllDeclared(scene, requests)
  {
    if requests == [] then Step(Start(scene), [])
    else
      var before := Play(scene, requests[..|requests| - 1]);
      var step := Perform(scene, before.roles, requests[|requests| - 1]);
      Step(step.roles, before.emitted + step.emitted)
  }

  // ----- agreement with the frame -----

  /** What the sparse map says about a part, deferred parts read correctly. */
  function Recorded(scene: Scene, current: map<Target, Role>, t: Target): Option<Role>
    requires scene.Declares(t)
  {
    if t in current then Some(current[t])
    else if scene.Deferred(t) then Some(scene.initial[t.visual])
    else CurrentRole(current, t)
  }

  ghost predicate WholesKnown(scene: Scene, current: map<Target, Role>) {
    forall r :: r in scene.initial ==> Target(r, None, None) in current
  }

  ghost predicate Agrees(scene: Scene, current: map<Target, Role>, actions: seq<SetRole>) {
    && WholesKnown(scene, current)
    && forall t: Target :: scene.Declares(t) ==> Recorded(scene, current, t) == Some(Shown(scene, actions, t))
  }

  lemma AssignAgrees(scene: Scene, current: map<Target, Role>, actions: seq<SetRole>, t: Target, role: Role)
    requires scene.Declares(t) && Agrees(scene, current, actions)
    ensures Agrees(scene, Assigned(scene, current, t, role), actions + [SetRole(t, role)])
  {
    var now := Assigned(scene, current, t, role);
    forall r | r in scene.initial
      ensures Target(r, None, None) in now
    {
    }
    forall k: Target | scene.Declares(k)
      ensures Recorded(scene, now, k) == Some(Shown(scene, actions + [SetRole(t, role)], k))
    {
      hide Shown;
      ShownSnoc(scene, actions, SetRole(t, role), k);
      assert Recorded(scene, current, k) == Some(Shown(scene, actions, k));
      assert k.WholeOf() in current;
    }
  }

  lemma PerformAgrees(scene: Scene, roles: Roles, actions: seq<SetRole>, r: Request)
    requires scene.Declares(r.target) && Agrees(scene, roles.current, actions)
    ensures Agrees(scene, Perform(scene, roles, r).roles.current, actions + Perform(scene, roles, r).emitted)
  {
    hide Agrees, Assigned;
    var emitted := Perform(scene, roles, r).emitted;
    if emitted == [] {
      assert actions + emitted == actions;
    } else {
      AssignAgrees(scene, roles.current, actions, r.target, emitted[0].role);
    }
  }

  /** After any run the sparse map, with fallback to the whole visual and clearing
      of descendants, says of every part exactly what the renderer shows. */
  lemma {:induction false} PlayAgrees(scene: Scene, requests: seq<Request>)
    requires AllDeclared(scene, requests)
    ensures Agrees(scene, Play(scene, requests).roles.current, Play(scene, requests).emitted)
  {
    if requests == [] {
    } else {
      hide Agrees, Perform;
      var front, last := requests[..|requests| - 1], requests[|requests| - 1];
      PlayAgrees(scene, front);
      var before := Play(scene, front);
      PerformAgrees(scene, before.roles, before.emitted, last);
    }
  }

  /** The lookup itself is right exactly unless a deferred part without an entry
      is read through a whole visual that has left its initial role. */
  lemma LookupRightIff(scene: Scene, requests: seq<Request>, t: Target)
    requires AllDeclared(scene, requests) && scene.Declares(t)
    ensures
      var played := Play(scene, requests);
      var current := played.roles.current;
      CurrentRole(current, t) == Some(Shown(scene, played.emitted, t)) <==>
      (t in current || !scene.Deferred(t) || Shown(scene, played.emitted, t.WholeOf()) == scene.initial[t.visual])
  {
    PlayAgrees(scene, requests);
    var played := Play(scene, requests);
    hide Play, Shown;
    assert t.WholeOf() in played.roles.current;
    assert Recorded(scene, played.roles.current, t) == Some(Shown(scene, played.emitted, t));
    assert Recorded(scene, played.roles.current, t.WholeOf()) == Some(Shown(scene, played.emitted, t.WholeOf()));
  }

  /** A requested change is emitted exactly when it changes what its target shows,
      except for a deferred part without an entry, where it is emitted exactly when
      the whole visual has another role. */
  lemma EmittedChangesAreReal(scene: Scene, requests: seq<Request>, t: Target, role: Role)
    requires AllDeclared(scene, requests) && scene.Declares(t)
    ensures
      var played := Play(scene, requests);
      var emitted := Perform(scene, played.roles, Change(t, role)).emitted;
      if t in played.roles.current || !scene.Deferred(t) then
        emitted == [SetRole(t, role)] <==> Shown(scene, played.emitted, t) != role
      else
        && Shown(scene, played.emitted, t) == scene.initial[t.visual]
        && (emitted == [SetRole(t, role)] <==> Shown(scene, played.emitted, t.WholeOf()) != role)
  {
    PlayAgrees(scene, requests);
    var played := Play(scene, requests);
    hide Play, Shown, Assigned;
    var current := played.roles.current;
    assert t.WholeOf() in current;
    assert Recorded(scene, current, t) == Some(Shown(scene, played.emitted, t));
    assert Recorded(scene, current, t.WholeOf()) == Some(Shown(scene, played.emitted, t.WholeOf()));
  }

  ghost predicate UniformAt(scene: Scene, actions: seq<SetRole>, visual: Ref, role: Role)
    requires visual in scene.initial
  {
    forall t: Target :: t.visual == visual && !scene.Deferred(t) ==> Shown(scene, actions, t) == role
  }

  /** After a requested change of a whole visual every part that is not deferred
      shows the role, exactly unless the request was suppressed because the whole
      already had the role while some part did not. */
  lemma WholeChangeUniformIff(scene: Scene, requests: seq<Request>, visual: Ref, role: Role)
    requires AllDeclared(scene, requests) && visual in scene.initial
    ensures
      var played := Play(scene, requests);
      var whole := Target(visual, None, None);
      var after := played.emitted + Perform(scene, played.roles, Change(whole, role)).emitted;
      UniformAt(scene, after, visual, role) <==>
      (Shown(scene, played.emitted, whole) != role || UniformAt(scene, played.emitted, visual, role))
  {
    var whole := Target(visual, None, None);
    EmittedChangesAreReal(scene, requests, whole, role);
    var played := Play(scene, requests);
    hide Play, Shown;
    var emitted := Perform(scene, played.roles, Change(whole, role)).emitted;
    if emitted == [] {
      assert played.emitted + emitted == played.emitted;
    } else {
      forall t: Target | t.visual == visual && !scene.Deferred(t)
        ensures Shown(scene, played.emitted + emitted, t) == role
      {
        ShownSnoc(scene, played.emitted, emitted[0], t);
      }
    }
  }

  // ----- dim and restore -----

  ghost predicate SameFrame(scene: Scene, a: seq<SetRole>, b: seq<SetRole>) {
    forall t: Target :: scene.Declares(t) ==> Shown(scene, a, t) == Shown(scene, b, t)
  }

  /** What restoring a target brings back once it is dimmed: what an earlier dim
      still remembers, or else the recorded role, or else the initial one. */
  function Saved(scene: Scene, roles: Roles, t: Target): Role
    requires scene.Declares(t)
  {
    if t in roles.previous then roles.previous[t]
    else if t in roles.current then roles.current[t]
    else scene.initial[t.visual]
  }

  /** Everything emitted by dimming a target and restoring it at once. */
  function DimThenRestore(scene: Scene, roles: Roles, t: Target): seq<SetRole>
    requires scene.Declares(t)
  {
    var dimmed := Perform(scene, roles, Dim(t));
    dimmed.emitted + Perform(scene, dimmed.roles, Restore(t)).emitted
  }

  lemma DimRestoreEmits(scene: Scene, roles: Roles, t: Target)
    requires scene.Declares(t)
    ensures DimThenRestore(scene, roles, t) == [SetRole(t, NEUTRAL)] + [SetRole(t, Saved(scene, roles, t))]
  {
    hide Assigned;
  }

  lemma DimRestoreShown(scene: Scene, roles: Roles, actions: seq<SetRole>, t: Target, k: Target)
    requires scene.Declares(t) && scene.Declares(k)
    ensures Shown(scene, actions + DimThenRestore(scene, roles, t), k)
         == if Restyles(scene, t, k) then Saved(scene, roles, t) else Shown(scene, actions, k)
  {
    hide Shown, Saved, DimThenRestore;
    DimRestoreEmits(scene, roles, t);
    var first, second := SetRole(t, NEUTRAL), SetRole(t, Saved(scene, roles, t));
    assert actions + ([first] + [second]) == (actions + [first]) + [second];
    ShownSnoc(scene, actions, first, k);
    ShownSnoc(scene, actions + [first], second, k);
  }

  /** Restoring a dimmed part brings the frame back exactly when an earlier dim
      still remembers the role it shows, or none is remembered and the part had an
      entry of its own, or is deferred, or its whole visual is at its initial role:
      dimming remembers the initial role of a part that merely followed its whole,
      and an earlier memory is never overwritten. */
  lemma RestoreUndoesDimIff(scene: Scene, requests: seq<Request>, t: Target)
    requires AllDeclared(scene, requests) && scene.Declares(t) && !t.Whole()
    ensures
      var played := Play(scene, requests);
      SameFrame(scene, played.emitted + DimThenRestore(scene, played.roles, t), played.emitted) <==>
      if t in played.roles.previous then played.roles.previous[t] == Shown(scene, played.emitted, t)
      else
        || t in played.roles.current || scene.Deferred(t)
        || Shown(scene, played.emitted, t.WholeOf()) == scene.initial[t.visual]
  {
    PlayAgrees(scene, requests);
    var played := Play(scene, requests);
    hide Play, Shown, DimThenRestore;
    forall k: Target | scene.Declares(k)
      ensures Shown(scene, played.emitted + DimThenRestore(scene, played.roles, t), k)
           == if k == t then Saved(scene, played.roles, t) else Shown(scene, played.emitted, k)
    {
      DimRestoreShown(scene, played.roles, played.emitted, t, k);
    }
    assert t.WholeOf() in played.roles.current;
    assert Recorded(scene, played.roles.current, t) == Some(Shown(scene, played.emitted, t));
    assert Recorded(scene, played.roles.current, t.WholeOf()) == Some(Shown(scene, played.emitted, t.WholeOf()));
  }

  /** Restoring a dimmed whole visual brings the frame back exactly when its parts
      all showed one role before: the one an earlier dim of the whole remembers,
      or else the whole's own. Part roles are not remembered. */
  lemma RestoreUndoesWholeDimIff(scene: Scene, requests: seq<Request>, visual: Ref)
    requires AllDeclared(scene, requests) && visual in scene.initial
    ensures
      var played := Play(scene, requests);
      var whole := Target(visual, None, None);
      var remembered := if whole in played.roles.previous then played.roles.previous[whole] else Shown(scene, played.emitted, whole);
      SameFrame(scene, played.emitted + DimThenRestore(scene, played.roles, whole), played.emitted) <==>
      UniformAt(scene, played.emitted, visual, remembered)
  {
    PlayAgrees(scene, requests);
    var played := Play(scene, requests);
    var whole := Target(visual, None, None);
    hide Play, Shown, DimThenRestore;
    assert whole in played.roles.current;
    assert Recorded(scene, played.roles.current, whole) == Some(Shown(scene, played.emitted, whole));
    forall k: Target | scene.Declares(k)
      ensures Shown(scene, played.emitted + DimThenRestore(scene, played.roles, whole), k)
           == if Restyles(scene, whole, k) then Saved(scene, played.roles, whole) else Shown(scene, played.emitted, k)
    {
      DimRestoreShown(scene, played.roles, played.emitted, whole, k);
    }
  }

  // ----- runs on which the expectations fail -----

  lemma PlayOne(scene: Scene, r: Request)
    requires scene.Declares(r.target)
    ensures AllDeclared(scene, [r]) && Play(scene, [r]) == Perform(scene, Start(scene), r)
  {
    assert [r][..0] == [];
    var step := Perform(scene, Start(scene), r);
    assert [] + step.emitted == step.emitted;
  }

  /** One emphasis at the start of a lesson. */
  lemma AfterOneEmphasis(scene: Scene, t: Target, role: Role, k: Target)
    requires scene.Declares(t) && k.visual == t.visual
    ensures
      var requests := [Emphasize(t, role)];
      AllDeclared(scene, requests) &&
      var played := Play(scene, requests);
      && played.roles.previous == map[]
      && (k in played.roles.current <==> k == t || k.Whole())
      && (k in played.roles.current ==> played.roles.current[k] == if k == t then role else scene.initial[k.visual])
      && Shown(scene, played.emitted, k) == if Restyles(scene, t, k) then role else scene.initial[t.visual]
  {
    PlayOne(scene, Emphasize(t, role));
    ShownSnoc(scene, [], SetRole(t, role), k);
    assert [] + [SetRole(t, role)] == [SetRole(t, role)];
  }

  /** Emphasising a visual, then dimming and restoring a part of it, leaves the
      part at the initial role instead of the emphasised one. */
  lemma RestoreForgetsEmphasis(scene: Scene, t: Target, role: Role)
    requires scene.Declares(t) && !t.Whole() && !scene.Deferred(t) && role != scene.initial[t.visual]
    ensures
      var requests := [Emphasize(t.WholeOf(), role)];
      && AllDeclared(scene, requests + [Dim(t), Restore(t)])
      && AllDeclared(scene, requests)
      && Shown(scene, Play(scene, requests).emitted, t) == role
      && Shown(scene, Play(scene, requests + [Dim(t), Restore(t)]).emitted, t) == scene.initial[t.visual]
  {
    var requests := [Emphasize(t.WholeOf(), role)];
    AfterOneEmphasis(scene, t.WholeOf(), role, t);
    var played := Play(scene, requests);
    PlayDimRestore(scene, requests, t);
    hide Play;
    DimRestoreShown(scene, played.roles, played.emitted, t, t);
  }

  lemma PlayDimRestore(scene: Scene, requests: seq<Request>, t: Target)
    requires AllDeclared(scene, requests) && scene.Declares(t)
    ensures
      var all := requests + [Dim(t), Restore(t)];
      var played := Play(scene, requests);
      && AllDeclared(scene, all)
      && Play(scene, all).emitted == played.emitted + DimThenRestore(scene, played.roles, t)
  {
    var dimmed := requests + [Dim(t)];
    var all := requests + [Dim(t), Restore(t)];
    assert all[..|dimmed|] == dimmed && dimmed[..|requests|] == requests;
    hide Perform;
    var played := Play(scene, requests);
    var dim := Perform(scene, played.roles, Dim(t));
    assert Play(scene, dimmed) == Step(dim.roles, played.emitted + dim.emitted);
    var restore := Perform(scene, dim.roles, Restore(t));
    assert (played.emitted + dim.emitted) + restore.emitted == played.emitted + (dim.emitted + restore.emitted);
  }

  /** A target dimmed once and then emphasised keeps the first memory: dimming and
      restoring it again takes it back to the initial role, past the emphasis. */
  lemma RestoreSkipsLaterEmphasis(scene: Scene, t: Target, role: Role)
    requires scene.Declares(t) && role != scene.initial[t.visual]
    ensures
      var requests := [Dim(t), Emphasize(t, role)];
      && AllDeclared(scene, requests + [Dim(t), Restore(t)])
      && AllDeclared(scene, requests)
      && t in Play(scene, requests).roles.current
      && Shown(scene, Play(scene, requests).emitted, t) == role
      && Shown(scene, Play(scene, requests + [Dim(t), Restore(t)]).emitted, t) == scene.initial[t.visual]
  {
    var requests := [Dim(t), Emphasize(t, role)];
    PlayOne(scene, Dim(t));
    assert requests[..1] == [Dim(t)];
    var played := Play(scene, requests);
    assert played.roles.previous == map[t := scene.initial[t.visual]];
    assert played.emitted == [SetRole(t, NEUTRAL)] + [SetRole(t, role)];
    ShownSnoc(scene, [SetRole(t, NEUTRAL)], SetRole(t, role), t);
    PlayDimRestore(scene, requests, t);
    hide Play;
    DimRestoreShown(scene, played.roles, played.emitted, t, t);
  }

  /** A deferred part without an entry is looked up through its emphasised whole,
      so the lookup is wrong, a change to the emphasised role is swallowed although
      the part does not show it, and a change to what it shows is emitted. */
  lemma DeferredPartMisread(scene: Scene, t: Target, role: Role)
    requires scene.Declares(t) && scene.Deferred(t) && role != scene.initial[t.visual]
    ensures
      var requests := [Emphasize(t.WholeOf(), role)];
      AllDeclared(scene, requests) &&
      var played := Play(scene, requests);
      var initial := scene.initial[t.visual];
      && Shown(scene, played.emitted, t) == initial
      && CurrentRole(played.roles.current, t) == Some(role)
      && Perform(scene, played.roles, Change(t, role)).emitted == []
      && Perform(scene, played.roles, Change(t, initial)).emitted == [SetRole(t, initial)]
  {
    var requests := [Emphasize(t.WholeOf(), role)];
    AfterOneEmphasis(scene, t.WholeOf(), role, t);
    AfterOneEmphasis(scene, t.WholeOf(), role, t.WholeOf());
    hide Play, Shown, Assigned;
  }

  /** With one part emphasised, setting the whole visual to its initial role is
      swallowed and the part keeps its emphasis; dimming and restoring the whole
      loses it. */
  lemma EmphasisedPartSurprises(scene: Scene, t: Target, role: Role)
    requires scene.Declares(t) && !t.Whole() && !scene.Deferred(t) && role != scene.initial[t.visual]
    ensures
      var requests, whole, initial := [Emphasize(t, role)], t.WholeOf(), scene.initial[t.visual];
      && AllDeclared(scene, requests + [Dim(whole), Restore(whole)])
      && AllDeclared(scene, requests)
      && var played := Play(scene, requests);
      && Shown(scene, played.emitted, t) == role
      && Perform(scene, played.roles, Change(whole, initial)).emitted == []
      && !UniformAt(scene, played.emitted, t.visual, initial)
      && Shown(scene, Play(scene, requests + [Dim(whole), Restore(whole)]).emitted, t) == initial
  {
    var requests, whole := [Emphasize(t, role)], t.WholeOf();
    AfterOneEmphasis(scene, t, role, t);
    AfterOneEmphasis(scene, t, role, whole);
    var played := Play(scene, requests);
    PlayDimRestore(scene, requests, whole);
    hide Play;
    DimRestoreShown(scene, played.roles, played.emitted, whole, t);
  }

  // ----- the expander's role state -----

  class RoleBoard {
    const scene: Scene
    var current: map<Target, Role>
    var previous: map<Target, Role>

    function Value(): Roles
      reads this
    {
      Roles(current, previous)
    }

    constructor (scene: Scene)
      ensures Value() == Start(scene) && this.scene == scene
    {
      this.scene := scene;
      current := Start(scene).current;
      previous := map[];
    }

    /** Forget every entry a whole-visual change restyles. */
    method ClearDescendantRoles(t: Target)
      modifies this`current
      ensures current == map k | k in old(current) && !IsCleared(scene, t, k) :: old(current)[k]
    {
      if t.part.Some? || t.index.Some? {
        return;
      }
      var rest := set k | k in current && k.visual == t.visual && k != t;
      ghost var listed := rest;
      while rest != {}
        invariant rest <= listed
        invariant current == map k | k in old(current) && !(k in listed && k !in rest && IsCleared(scene, t, k)) :: old(current)[k]
      {
        ghost var member := SomeMember(rest);
        var k :| k in rest;
        rest := rest - {k};
        if !scene.Deferred(k) {
          current := current - {k};
        }
      }
    }

    method Assign(t: Target, role: Role) returns (emitted: seq<SetRole>)
      modifies this`current
      ensures current == Assigned(scene, old(current), t, role) && emitted == [SetRole(t, role)]
    {
      current := current[t := role];
      ClearDescendantRoles(t);
      return [SetRole(t, role)];
    }

    method RoleChange(t: Target, role: Role) returns (emitted: seq<SetRole>)
      requires scene.Declares(t)
      modifies this`current
      ensures Step(Value(), emitted) == Perform(scene, old(Value()), Change(t, role))
    {
      if CurrentRole(current, t) == Some(role) {
        return [];
      }
      emitted := Assign(t, role);
    }

    method DimTarget(t: Target) returns (emitted: seq<SetRole>)
      requires scene.Declares(t)
      modifies this
      ensures Step(Value(), emitted) == Perform(scene, old(Value()), Dim(t))
    {
      if t !in previous {
        previous := previous[t := if t in current then current[t] else scene.initial[t.visual]];
      }
      emitted := Assign(t, NEUTRAL);
    }

    method RestoreTarget(t: Target) returns (emitted: seq<SetRole>)
      requires scene.Declares(t)
      modifies this
      ensures Step(Value(), emitted) == Perform(scene, old(Value()), Restore(t))
    {
      var role := if t in previous then previous[t] else scene.initial[t.visual];
      previous := previous - {t};
      emitted := Assign(t, role);
    }
  }
}
