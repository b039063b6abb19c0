/** What the recoloured frame looks like piece by piece. A part may be a group over
    pieces that other parts also cover, as a bar's regions are over its segments,
    and a piece may be drawn in another role than its visual declares. */
module BeatFrames {
  import opened Outcomes
  import opened BeatRoles

  /** One thing with a colour of its own. */
  type Piece = nat

  /** The scene with the pieces each target covers and the role each is drawn in. */
  datatype Canvas = Canvas(scene: Scene, covers: Target -> set<Piece>, drawn: Piece -> Role)

  /** Visuals share no piece; a whole visual covers the parts that are not deferred
      and none of those that are. */
  ghost predicate LaidOut(canvas: Canvas) {
    && (forall t: Target, u: Target :: t.visual != u.visual ==> canvas.covers(t) !! canvas.covers(u))
    && forall t: Target :: !t.Whole() ==>
                             if canvas.scene.Deferred(t) then canvas.covers(t) !! canvas.covers(t.WholeOf())
                             else canvas.covers(t) <= canvas.covers(t.WholeOf())
  }

  /** A recolouring colours every piece its target covers. */
  function Colour(canvas: Canvas, actions: seq<SetRole>, p: Piece): Role {
    if actions == [] then canvas.drawn(p)
    else
      var last := actions[|actions| - 1];
      if p in canvas.covers(last.target) then last.role else Colour(canvas, actions[..|actions| - 1], p)
  }

  lemma ColourSnoc(canvas: Canvas, actions: seq<SetRole>, last: SetRole, p: Piece)
    ensures Colour(canvas, actions + [last], p)
         == if p in canvas.covers(last.target) then last.role else Colour(canvas, actions, p)
  {
    assert (actions + [last])[..|actions|] == actions;
  }

  // ----- when the bookkeeping describes the frame -----

  predicate IsPart(canvas: Canvas, t: Target) {
    canvas.scene.Declares(t) && !t.Whole()
  }

  /** No two parts share a piece. */
  ghost predicate Disjoint(canvas: Canvas) {
    forall t: Target, u: Target ::
      IsPart(canvas, t) && IsPart(canvas, u) && t != u ==> canvas.covers(t) !! canvas.covers(u)
  }

  /** Every piece of a part is drawn in the role its visual declares. */
  ghost predicate DrawnAsDeclared(canvas: Canvas) {
    forall t: Target, p: Piece ::
      IsPart(canvas, t) && p in canvas.covers(t) ==> canvas.drawn(p) == canvas.scene.initial[t.visual]
  }

  lemma ActionReaches(canvas: Canvas, acted: Target, t: Target, p: Piece)
    requires LaidOut(canvas) && Disjoint(canvas) && canvas.scene.Declares(acted) && IsPart(canvas, t) && p in canvas.covers(t)
    ensures p in canvas.covers(acted) <==> Restyles(canvas.scene, acted, t)
  {
    if acted.visual == t.visual && acted.Whole() {
      assert acted == t.WholeOf();
    }
  }

  ghost predicate ActsOnDeclared(scene: Scene, actions: seq<SetRole>) {
    forall i :: 0 <= i < |actions| ==> scene.Declares(actions[i].target)
  }

  lemma {:induction false} PlayActsOnDeclared(scene: Scene, requests: seq<Request>)
    requires AllDeclared(scene, requests)
    ensures ActsOnDeclared(scene, Play(scene, requests).emitted)
  {
    if requests != [] {
      PlayActsOnDeclared(scene, requests[..|requests| - 1]);
      hide Assigned;
    }
  }

  /** With disjoint parts drawn as declared, a part's pieces all have the part's
      colour. */
  lemma {:induction false} ColourIsShown(canvas: Canvas, actions: seq<SetRole>, t: Target, p: Piece)
    requires LaidOut(canvas) && Disjoint(canvas) && DrawnAsDeclared(canvas)
    requires ActsOnDeclared(canvas.scene, actions) && IsPart(canvas, t) && p in canvas.covers(t)
    ensures Colour(canvas, actions, p) == Shown(canvas.scene, actions, t)
  {
    if actions != [] {
      hide LaidOut, Disjoint, DrawnAsDeclared;
      ColourIsShown(canvas, actions[..|actions| - 1], t, p);
      ActionReaches(canvas, actions[|actions| - 1].target, t, p);
    }
  }

  /** What the map records of a part is the colour of every piece of it. */
  ghost predicate DescribesFrame(canvas: Canvas, requests: seq<Request>, t: Target)
    requires AllDeclared(canvas.scene, requests) && IsPart(canvas, t)
  {
    var played := Play(canvas.scene, requests);
    forall p :: p in canvas.covers(t) ==>
                  Recorded(canvas.scene, played.roles.current, t) == Some(Colour(canvas, played.emitted, p))
  }

  ghost predicate AlwaysDescribesFrame(canvas: Canvas) {
    forall requests, t ::
      AllDeclared(canvas.scene, requests) && IsPart(canvas, t) ==> DescribesFrame(canvas, requests, t)
  }

  /** The sparse map describes the frame after every run, piece by piece, exactly
      when no two parts share a piece and all are drawn as declared. */
  lemma DescribesFrameIff(canvas: Canvas)
    requires LaidOut(canvas)
    ensures AlwaysDescribesFrame(canvas) <==> Disjoint(canvas) && DrawnAsDeclared(canvas)
  {
    hide LaidOut, Disjoint, DrawnAsDeclared, DescribesFrame, AllDeclared, IsPart;
    if Disjoint(canvas) && DrawnAsDeclared(canvas) {
      forall requests, t | AllDeclared(canvas.scene, requests) && IsPart(canvas, t)
        ensures DescribesFrame(canvas, requests, t)
      {
        DisjointDescribes(canvas, requests, t);
      }
    }
    if AlwaysDescribesFrame(canvas) {
      DescribedIsDrawn(canvas);
      DescribedIsDisjoint(canvas);
    }
  }

  lemma DisjointDescribes(canvas: Canvas, requests: seq<Request>, t: Target)
    requires LaidOut(canvas) && Disjoint(canvas) && DrawnAsDeclared(canvas)
    requires AllDeclared(canvas.scene, requests) && IsPart(canvas, t)
    ensures DescribesFrame(canvas, requests, t)
  {
    hide LaidOut, Disjoint, DrawnAsDeclared, Play, Shown, Colour, Recorded;
    PlayAgrees(canvas.scene, requests);
    PlayActsOnDeclared(canvas.scene, requests);
    var played := Play(canvas.scene, requests);
    forall p | p in canvas.covers(t)
      ensures Recorded(canvas.scene, played.roles.current, t) == Some(Colour(canvas, played.emitted, p))
    {
      ColourIsShown(canvas, played.emitted, t, p);
    }
  }

  lemma DescribedIsDrawn(canvas: Canvas)
    requires AlwaysDescribesFrame(canvas)
    ensures DrawnAsDeclared(canvas)
  {
    forall t: Target, p: Piece | IsPart(canvas, t) && p in canvas.covers(t)
      ensures canvas.drawn(p) == canvas.scene.initial[t.visual]
    {
      assert AllDeclared(canvas.scene, []);
      assert DescribesFrame(canvas, [], t);
    }
  }

  /** Colouring one of two overlapping parts after the other. */
  lemma OverlapMisdescribed(canvas: Canvas, t: Target, u: Target, p: Piece)
    requires IsPart(canvas, t) && IsPart(canvas, u) && t != u && p in canvas.covers(t) && p in canvas.covers(u)
    ensures
      var requests := [Emphasize(t, "focus"), Emphasize(u, NEUTRAL)];
      AllDeclared(canvas.scene, requests) && !DescribesFrame(canvas, requests, t)
  {
    var requests := [Emphasize(t, "focus"), Emphasize(u, NEUTRAL)];
    PlayOne(canvas.scene, requests[0]);
    assert requests[..1] == [requests[0]];
    var played := Play(canvas.scene, requests);
    assert played.emitted == [SetRole(t, "focus")] + [SetRole(u, NEUTRAL)];
    ColourSnoc(canvas, [SetRole(t, "focus")], SetRole(u, NEUTRAL), p);
    assert t in played.roles.current && played.roles.current[t] == "focus";
  }

  lemma DescribedIsDisjoint(canvas: Canvas)
    requires AlwaysDescribesFrame(canvas)
    ensures Disjoint(canvas)
  {
    hide DescribesFrame, AllDeclared;
    forall t: Target, u: Target | IsPart(canvas, t) && IsPart(canvas, u) && t != u
      ensures canvas.covers(t) !! canvas.covers(u)
    {
      if p :| p in canvas.covers(t) && p in canvas.covers(u) {
        OverlapMisdescribed(canvas, t, u, p);
      }
    }
  }

  // ----- emitted changes and the frame -----

  ghost predicate SameColours(canvas: Canvas, a: seq<SetRole>, b: seq<SetRole>) {
    forall p: Piece :: Colour(canvas, a, p) == Colour(canvas, b, p)
  }

  /** With disjoint parts drawn as declared, a requested change of a part that is
      there to see is emitted exactly when the frame changes, the misread deferred
      part excepted. */
  lemma EmittedIsVisible(canvas: Canvas, requests: seq<Request>, t: Target, role: Role)
    requires LaidOut(canvas) && Disjoint(canvas) && DrawnAsDeclared(canvas)
    requires AllDeclared(canvas.scene, requests) && IsPart(canvas, t) && canvas.covers(t) != {}
    ensures
      var played := Play(canvas.scene, requests);
      var emitted := Perform(canvas.scene, played.roles, Change(t, role)).emitted;
      t in played.roles.current || !canvas.scene.Deferred(t) ==>
        (emitted == [] <==> SameColours(canvas, played.emitted + emitted, played.emitted))
        && (emitted == [] || emitted == [SetRole(t, role)])
  {
    EmittedChangesAreReal(canvas.scene, requests, t, role);
    PlayActsOnDeclared(canvas.scene, requests);
    hide LaidOut, Disjoint, DrawnAsDeclared, Play, Shown, Colour, Assigned;
    var played := Play(canvas.scene, requests);
    var emitted := Perform(canvas.scene, played.roles, Change(t, role)).emitted;
    if emitted == [] {
      assert played.emitted + emitted == played.emitted;
    } else {
      var p :| p in canvas.covers(t);
      ColourIsShown(canvas, played.emitted, t, p);
      ColourSnoc(canvas, played.emitted, SetRole(t, role), p);
    }
  }

  /** A change of a part whose pieces another part already coloured is emitted and
      changes nothing. */
  lemma EmittedInvisibly(canvas: Canvas, t: Target, u: Target, role: Role)
    requires IsPart(canvas, t) && IsPart(canvas, u) && t != u && canvas.covers(t) <= canvas.covers(u)
    requires role != canvas.scene.initial[t.visual]
    ensures
      var requests := [Emphasize(u, role)];
      AllDeclared(canvas.scene, requests) &&
      var played := Play(canvas.scene, requests);
      var emitted := Perform(canvas.scene, played.roles, Change(t, role)).emitted;
      emitted == [SetRole(t, role)] && SameColours(canvas, played.emitted + emitted, played.emitted)
  {
    var requests := [Emphasize(u, role)];
    PlayOne(canvas.scene, requests[0]);
    var played := Play(canvas.scene, requests);
    assert played.emitted == [SetRole(u, role)];
    var emitted := Perform(canvas.scene, played.roles, Change(t, role)).emitted;
    assert emitted == [SetRole(t, role)];
    forall p: Piece
      ensures Colour(canvas, played.emitted + emitted, p) == Colour(canvas, played.emitted, p)
    {
      ColourSnoc(canvas, played.emitted, SetRole(t, role), p);
      ColourSnoc(canvas, [], SetRole(u, role), p);
      assert [] + [SetRole(u, role)] == [SetRole(u, role)];
    }
  }

  // ----- dim and restore, whatever overlaps -----

  /** Dimming and restoring a target, a part or a whole visual, leaves the frame as
      it was exactly when every piece it covers had the role that is brought back. */
  lemma RestoredFrameIff(canvas: Canvas, requests: seq<Request>, t: Target)
    requires AllDeclared(canvas.scene, requests) && canvas.scene.Declares(t)
    ensures
      var played := Play(canvas.scene, requests);
      SameColours(canvas, played.emitted + DimThenRestore(canvas.scene, played.roles, t), played.emitted) <==>
      forall p :: p in canvas.covers(t) ==> Colour(canvas, played.emitted, p) == Saved(canvas.scene, played.roles, t)
  {
    hide Play, Colour, Saved, DimThenRestore;
    var played := Play(canvas.scene, requests);
    var saved := Saved(canvas.scene, played.roles, t);
    var after := played.emitted + DimThenRestore(canvas.scene, played.roles, t);
    DimRestoreEmits(canvas.scene, played.roles, t);
    var first, second := SetRole(t, NEUTRAL), SetRole(t, saved);
    assert after == (played.emitted + [first]) + [second];
    forall p: Piece
      ensures Colour(canvas, after, p) == if p in canvas.covers(t) then saved else Colour(canvas, played.emitted, p)
    {
      ColourSnoc(canvas, played.emitted, first, p);
      ColourSnoc(canvas, played.emitted + [first], second, p);
    }
  }
}
