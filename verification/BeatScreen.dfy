/** What is on screen after each beat of an expanded lesson, told by what the plan
    asks for: its own targets, its custom reveals, what a strategy stages and the
    compiler's answer. */
module BeatScreen {
  import opened Collections
  import opened Outcomes
  import BeatRoles
  import opened BeatReveals

  /** Everything this beat wants on screen. */
  predicate Asks(plan: Plan, i: nat, t: Target)
    requires i < |plan.beats|
  {
    var beat := plan.beats[i];
    || t in beat.targets
    || (exists k :: 0 <= k < |beat.customReveals| && t in beat.customReveals[k])
    || (plan.rayBoundary == Some(beat.id) && t == BeatRoles.Target(plan.primary, Some("boundary"), Some(0)))
    || (plan.rayShade == Some(beat.id) && plan.rayBoundary != Some(beat.id)
        && t == BeatRoles.Target(plan.primary, Some("ray"), Some(0)))
    || (i == 0 && t == BeatRoles.Target("evaluated_answer", None, None)
        && (plan.pairElimination ==> "evaluated_answer" in plan.scene.initial))
  }

  // ----- one beat -----

  /** What is still pending is what is not on screen, in the order asked for. */
  lemma {:induction false} PendingPicked(scene: Scene, revealed: set<Target>, targets: seq<Target>) returns (at: seq<nat>)
    ensures Picked(targets, at, Pending(scene, revealed, targets))
    ensures forall i: nat :: i in at <==> i < |targets| && !IsRevealed(scene, revealed, targets[i])
    decreases |targets|
  {
    var p := (t: Target) => !IsRevealed(scene, revealed, t);
    at := PendingPicks(scene, revealed, targets, p);
  }

  lemma {:induction false} PendingPicks(scene: Scene, revealed: set<Target>, targets: seq<Target>, p: Target -> bool)
    returns (at: seq<nat>)
    requires forall t :: p(t) <==> !IsRevealed(scene, revealed, t)
    ensures Picked(targets, at, Pending(scene, revealed, targets)) && PicksAll(targets, at, p)
    decreases |targets|
  {
    at := [];
    if targets != [] {
      var n := |targets| - 1;
      at := PendingPicks(scene, revealed, targets[..n], p);
      hide IsRevealed, Picked, PicksAll;
      at := PickNext(targets[..n], at, Pending(scene, revealed, targets[..n]), targets[n], p);
      assert targets == targets[..n] + [targets[n]];
    }
  }

  ghost predicate WantedIn(cues: seq<Cue>, t: Target) {
    exists c :: c in cues && c.Want? && t in c.targets
  }

  /** Staging brings what is wanted on screen, and nothing else. */
  lemma {:induction false} StageShows(scene: Scene, revealed: set<Target>, cues: seq<Cue>, t: Target)
    ensures WantedIn(cues, t) ==> IsRevealed(scene, Stage(scene, revealed, cues).revealed, t)
    ensures t in Stage(scene, revealed, cues).revealed && t !in revealed ==> WantedIn(cues, t) && !IsRevealed(scene, revealed, t)
    decreases |cues|
  {
    if cues != [] {
      var n := |cues| - 1;
      StageShows(scene, revealed, cues[..n], t);
      RevealedGrows(scene, revealed, cues[..n]);
      assert cues == cues[..n] + [cues[n]];
      hide Stage;
      OneShows(scene, Stage(scene, revealed, cues[..n]).revealed, cues[n], t);
    }
  }

  lemma OneShows(scene: Scene, revealed: set<Target>, cue: Cue, t: Target)
    ensures
      var now := StageOne(scene, revealed, cue).revealed;
      && revealed <= now
      && (IsRevealed(scene, revealed, t) ==> IsRevealed(scene, now, t))
      && (cue.Want? && t in cue.targets ==> IsRevealed(scene, now, t))
      && (t in now && t !in revealed ==> cue.Want? && t in cue.targets && !IsRevealed(scene, revealed, t))
  {
  }

  // ----- what a beat's cues want -----

  lemma WantedConcat(a: seq<Cue>, b: seq<Cue>, t: Target)
    ensures WantedIn(a + b, t) <==> WantedIn(a, t) || WantedIn(b, t)
  {
    if WantedIn(a, t) {
      var c :| c in a && c.Want? && t in c.targets;
      assert c in a + b;
    }
    if WantedIn(b, t) {
      var c :| c in b && c.Want? && t in c.targets;
      assert c in a + b;
    }
  }

  lemma WantsAll(lists: seq<seq<Target>>, t: Target)
    ensures WantedIn(Wants(lists), t) <==> exists k :: 0 <= k < |lists| && t in lists[k]
  {
    if k :| 0 <= k < |lists| && t in lists[k] {
      assert Wants(lists)[k] in Wants(lists);
    }
  }

  lemma WantsOne(cue: Cue, t: Target)
    ensures WantedIn([cue], t) <==> cue.Want? && t in cue.targets
  {
    assert cue in [cue];
  }

  lemma RayWants(plan: Plan, beat: Beat, t: Target)
    ensures WantedIn(RayCues(plan, beat), t) <==>
            || (plan.rayBoundary == Some(beat.id) && t == BeatRoles.Target(plan.primary, Some("boundary"), Some(0)))
            || (plan.rayShade == Some(beat.id) && plan.rayBoundary != Some(beat.id)
                && t == BeatRoles.Target(plan.primary, Some("ray"), Some(0)))
  {
    WantsOne(Want([BeatRoles.Target(plan.primary, Some("boundary"), Some(0))]), t);
    WantsOne(Want([BeatRoles.Target(plan.primary, Some("ray"), Some(0))]), t);
  }

  lemma AnswerWants(plan: Plan, i: nat, t: Target)
    requires i < |plan.beats|
    ensures WantedIn(AnswerCues(plan, i), t) <==>
            && i == 0 && t == BeatRoles.Target("evaluated_answer", None, None)
            && (plan.pairElimination ==> "evaluated_answer" in plan.scene.initial)
  {
    WantsOne(Want([ANSWER]), t);
  }

  lemma CuesWant(plan: Plan, i: nat, t: Target)
    requires i < |plan.beats|
    ensures WantedIn(Cues(plan, i), t) <==> Asks(plan, i, t)
  {
    var beat := plan.beats[i];
    WantsOne(Want(beat.targets), t);
    WantsAll(beat.customReveals, t);
    RayWants(plan, beat, t);
    AnswerWants(plan, i, t);
    assert !WantedIn(KindCues(plan, beat), t) && !WantedIn(LabelCues(plan, beat), t) && !WantedIn(WorkCues(plan, beat), t);
    var kind, ray, labels := KindCues(plan, beat), RayCues(plan, beat), LabelCues(plan, beat);
    var custom, answer, work := Wants(beat.customReveals), AnswerCues(plan, i), WorkCues(plan, beat);
    hide *;
    var first := [Want(beat.targets)];
    WantedConcat(first, kind, t);
    WantedConcat(first + kind, ray, t);
    WantedConcat(first + kind + ray, labels, t);
    WantedConcat(first + kind + ray + labels, custom, t);
    WantedConcat(first + kind + ray + labels + custom, answer, t);
    WantedConcat(first + kind + ray + labels + custom + answer, work, t);
  }

  // ----- main results -----

  lemma NextBeat(plan: Plan, i: nat)
    requires i < |plan.beats|
    ensures Lesson(plan, i + 1).revealed == Stage(plan.scene, Lesson(plan, i).revealed, Cues(plan, i)).revealed
    ensures Lesson(plan, i + 1).actions
         == Lesson(plan, i).actions + Stage(plan.scene, Lesson(plan, i).revealed, Cues(plan, i)).actions
  {
    StageConcat(plan.scene, {}, CuesUpTo(plan, i), Cues(plan, i));
  }

  /** After a beat everything it asks for is on screen, and what it newly reveals it
      asked for and was not yet on screen. */
  lemma BeatShows(plan: Plan, i: nat, t: Target)
    requires i < |plan.beats|
    ensures Asks(plan, i, t) ==> IsRevealed(plan.scene, Lesson(plan, i + 1).revealed, t)
    ensures t in Lesson(plan, i + 1).revealed && t !in Lesson(plan, i).revealed ==>
              Asks(plan, i, t) && !IsRevealed(plan.scene, Lesson(plan, i).revealed, t)
  {
    NextBeat(plan, i);
    CuesWant(plan, i, t);
    hide Asks, Cues, Lesson, IsRevealed, Stage;
    StageShows(plan.scene, Lesson(plan, i).revealed, Cues(plan, i), t);
  }

  lemma {:induction false} RevealedWasAsked(plan: Plan, n: nat, t: Target) returns (i: nat)
    requires n <= |plan.beats| && t in Lesson(plan, n).revealed
    ensures i < n && Asks(plan, i, t)
    decreases n
  {
    NothingYet(plan);
    hide *;
    if t in Lesson(plan, n - 1).revealed {
      i := RevealedWasAsked(plan, n - 1, t);
    } else {
      BeatShows(plan, n - 1, t);
      i := n - 1;
    }
  }

  lemma NothingYet(plan: Plan)
    ensures Lesson(plan, 0).revealed == {}
  {
  }

  ghost predicate OnScreen(plan: Plan, n: nat, t: Target)
    requires n <= |plan.beats|
  {
    exists a, u :: a in Lesson(plan, n).actions && a.Reveal? && u in a.targets && Brings(plan.scene, u, t)
  }

  lemma {:induction false} StageReveals(scene: Scene, cues: seq<Cue>, t: Target) returns (a: Action)
    requires t in Stage(scene, {}, cues).revealed
    ensures a in Stage(scene, {}, cues).actions && a.Reveal? && t in a.targets
    decreases |cues|
  {
    var n := |cues| - 1;
    var before := Stage(scene, {}, cues[..n]);
    if t in before.revealed {
      a := StageReveals(scene, cues[..n], t);
    } else {
      a := Reveal(Pending(scene, before.revealed, cues[n].targets));
      assert a in StageOne(scene, before.revealed, cues[n]).actions;
    }
  }

  /** After the first n beats a target is on screen, by one of the reveal actions,
      exactly when one of those beats asked for it, or for its whole visual if the
      visual brings it along. */
  lemma OnScreenIff(plan: Plan, n: nat, t: Target)
    requires n <= |plan.beats|
    ensures OnScreen(plan, n, t) <==>
            exists i, u :: 0 <= i < n && Asks(plan, i, u) && (u == t || (u == t.WholeOf() && !plan.scene.Deferred(t)))
  {
    hide Asks;
    LessonOnlyWants(plan, n);
    StageKeeps(plan.scene, CuesUpTo(plan, n));
    if OnScreen(plan, n, t) {
      var a, u :| a in Lesson(plan, n).actions && a.Reveal? && u in a.targets && Brings(plan.scene, u, t);
      var i := RevealedWasAsked(plan, n, u);
      assert u == t || u == t.WholeOf();
    }
    if i, u :| 0 <= i < n && Asks(plan, i, u) && (u == t || (u == t.WholeOf() && !plan.scene.Deferred(t))) {
      AskedIsShown(plan, i, n, u, t);
    }
  }

  lemma AskedIsShown(plan: Plan, i: nat, n: nat, u: Target, t: Target)
    requires i < n <= |plan.beats| && Asks(plan, i, u) && (u == t || (u == t.WholeOf() && !plan.scene.Deferred(t)))
    ensures OnScreen(plan, n, t)
  {
    hide *;
    BeatShows(plan, i, u);
    LessonGrows(plan, i + 1, n);
    var v := RevealedBy(plan.scene, Lesson(plan, i + 1).revealed, u);
    BringsAlong(plan.scene, u, v, t);
    RevealedIsShown(plan, n, v, t);
  }

  lemma RevealedBy(scene: Scene, revealed: set<Target>, u: Target) returns (v: Target)
    requires IsRevealed(scene, revealed, u)
    ensures v in revealed && (v == u || (v == u.WholeOf() && !scene.Deferred(u)))
  {
    v := if u in revealed then u else u.WholeOf();
  }

  lemma RevealedIsShown(plan: Plan, n: nat, v: Target, t: Target)
    requires n <= |plan.beats| && v in Lesson(plan, n).revealed && Brings(plan.scene, v, t)
    ensures OnScreen(plan, n, t)
  {
    var a := StageReveals(plan.scene, CuesUpTo(plan, n), v);
    hide Stage, CuesUpTo, Brings;
  }

  lemma BringsAlong(scene: Scene, u: Target, v: Target, t: Target)
    requires u == t || (u == t.WholeOf() && !scene.Deferred(t))
    requires v == u || (v == u.WholeOf() && !scene.Deferred(u))
    ensures Brings(scene, v, t)
  {
  }
}
