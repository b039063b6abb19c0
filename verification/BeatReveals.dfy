/** What an expanded lesson reveals and when: every beat, strategy affordance and
    custom reveal asks for targets, and only those not yet on screen are revealed.
    The compiler's own answer appears in the first beat, shows its arithmetic in
    one later beat and its value in the conclusion. Role changes are the subject
    of the role bookkeeping and not repeated here. */
module BeatReveals {
  import opened Outcomes
  import BeatRoles

  type Target = BeatRoles.Target
  type Scene = BeatRoles.Scene
  type BeatId = string

  const ANSWER_REF := "evaluated_answer"
  const ANSWER := BeatRoles.Target(ANSWER_REF, None, None)

  datatype Kind = Orient | Introduce | Organize | Focus | Derive | Conclude

  datatype Beat = Beat(id: BeatId, kind: Kind, targets: seq<Target>, customReveals: seq<seq<Target>>)

  /** `owned` are the beats a strategy stages itself, in place of what their kind
      would do; the optional ids are the beats where deferred parts arrive. */
  datatype Plan = Plan(
    scene: Scene, beats: seq<Beat>, pairElimination: bool, hasOperation: bool, primary: BeatRoles.Ref,
    owned: set<BeatId>, rayBoundary: Option<BeatId>, rayShade: Option<BeatId>, unitLabels: Option<BeatId>)

  datatype Action = Reveal(targets: seq<Target>) | RevealLabels(visual: BeatRoles.Ref) | ShowWork | ShowValue

  // ----- revealing what is not yet revealed -----

  predicate IsRevealed(scene: Scene, revealed: set<Target>, t: Target) {
    t in revealed || (!scene.Deferred(t) && t.WholeOf() in revealed)
  }

  function Pending(scene: Scene, revealed: set<Target>, targets: seq<Target>): (pending: seq<Target>)
    ensures forall t :: t in pending <==> t in targets && !IsRevealed(scene, revealed, t)
  {
    if targets == [] then []
    else
      var front, last := targets[..|targets| - 1], targets[|targets| - 1];
      assert forall t :: t in targets <==> t in front || t == last;
      Pending(scene, revealed, front) + (if IsRevealed(scene, revealed, last) then [] else [last])
  }

  /** One thing a beat does, in order: ask for targets, or act. */
  datatype Cue = Want(targets: seq<Target>) | Do(action: Action)

  datatype Staged = Staged(actions: seq<Action>, revealed: set<Target>)

  function SetOf(targets: seq<Target>): set<Target> {
    set t | t in targets
  }

  function StageOne(scene: Scene, revealed: set<Target>, cue: Cue): Staged {
    match cue
    case Do(action) => Staged([action], revealed)
    case Want(targets) =>
      var pending := Pending(scene, revealed, targets);
      if pending == [] then Staged([], revealed) else Staged([Reveal(pending)], revealed + SetOf(pending))
  }

  function Stage(scene: Scene, revealed: set<Target>, cues: seq<Cue>): Staged {
    if cues == [] then Staged([], revealed)
    else
      var before := Stage(scene, revealed, cues[..|cues| - 1]);
      var step := StageOne(scene, before.revealed, cues[|cues| - 1]);
      Staged(before.actions + step.actions, step.revealed)
  }

  lemma {:induction false} StageConcat(scene: Scene, revealed: set<Target>, a: seq<Cue>, b: seq<Cue>)
    ensures
      var first := Stage(scene, revealed, a);
      var second := Stage(scene, first.revealed, b);
      Stage(scene, revealed, a + b) == Staged(first.actions + second.actions, second.revealed)
  {
    if b == [] {
      assert a + b == a;
    } else {
      hide StageOne;
      var front, last := b[..|b| - 1], b[|b| - 1];
      assert (a + b)[..|a + b| - 1] == a + front && (a + b)[|a + b| - 1] == last;
      StageConcat(scene, revealed, a, front);
    }
  }

  // ----- what a plan asks for, beat by beat -----

  function Wants(lists: seq<seq<Target>>): seq<Cue> {
    seq(|lists|, k requires 0 <= k < |lists| => Want(lists[k]))
  }

  predicate AnswerDeclared(plan: Plan) {
    !plan.pairElimination || ANSWER_REF in plan.scene.initial
  }

  /** The last focus or derive beat before the conclusion. */
  function LastDerivation(beats: seq<Beat>): Option<BeatId> {
    if beats == [] then None
    else
      var last := beats[|beats| - 1];
      if last.kind.Focus? || last.kind.Derive? then Some(last.id) else LastDerivation(beats[..|beats| - 1])
  }

  function WorkBeat(plan: Plan): Option<BeatId> {
    if plan.beats == [] || !plan.hasOperation || !AnswerDeclared(plan) then None
    else LastDerivation(plan.beats[..|plan.beats| - 1])
  }

  function KindCues(plan: Plan, beat: Beat): seq<Cue> {
    if beat.kind.Conclude? && beat.id !in plan.owned && !plan.pairElimination then [Do(ShowValue)] else []
  }

  function RayCues(plan: Plan, beat: Beat): seq<Cue> {
    if plan.rayBoundary == Some(beat.id) then [Want([BeatRoles.Target(plan.primary, Some("boundary"), Some(0))])]
    else if plan.rayShade == Some(beat.id) then [Want([BeatRoles.Target(plan.primary, Some("ray"), Some(0))])]
    else []
  }

  function LabelCues(plan: Plan, beat: Beat): seq<Cue> {
    if plan.unitLabels == Some(beat.id) then [Do(RevealLabels(plan.primary))] else []
  }

  function AnswerCues(plan: Plan, i: nat): seq<Cue> {
    if AnswerDeclared(plan) && i == 0 then [Want([ANSWER])] else []
  }

  function WorkCues(plan: Plan, beat: Beat): seq<Cue> {
    if WorkBeat(plan) == Some(beat.id) then [Do(ShowWork)] else []
  }

  function Cues(plan: Plan, i: nat): seq<Cue>
    requires i < |plan.beats|
  {
    var beat := plan.beats[i];
    [Want(beat.targets)] + KindCues(plan, beat) + RayCues(plan, beat) + LabelCues(plan, beat)
    + Wants(beat.customReveals) + AnswerCues(plan, i) + WorkCues(plan, beat)
  }

  function CuesUpTo(plan: Plan, n: nat): seq<Cue>
    requires n <= |plan.beats|
  {
    if n == 0 then [] else CuesUpTo(plan, n - 1) + Cues(plan, n - 1)
  }

  /** Everything the first n beats stage. */
  function Lesson(plan: Plan, n: nat): Staged
    requires n <= |plan.beats|
  {
    Stage(plan.scene, {}, CuesUpTo(plan, n))
  }

  // ----- no target is revealed twice -----

  /** Revealing t already brings u on screen. */
  predicate Brings(scene: Scene, t: Target, u: Target) {
    t == u || (t.Whole() && t.visual == u.visual && !scene.Deferred(u))
  }

  predicate Overlaps(scene: Scene, a: Action, b: Action) {
    a.Reveal? && b.Reveal? && exists t, u :: t in a.targets && u in b.targets && Brings(scene, t, u)
  }

  ghost predicate AllAmong(actions: seq<Action>, revealed: set<Target>) {
    forall a, t :: a in actions && a.Reveal? && t in a.targets ==> t in revealed
  }

  ghost predicate NoRepeats(scene: Scene, actions: seq<Action>) {
    forall i, j :: 0 <= i < j < |actions| ==> !Overlaps(scene, actions[i], actions[j])
  }

  lemma StageOneKeeps(scene: Scene, before: Staged, cue: Cue)
    requires AllAmong(before.actions, before.revealed) && NoRepeats(scene, before.actions)
    requires cue.Do? ==> !cue.action.Reveal?
    ensures
      var step := StageOne(scene, before.revealed, cue);
      AllAmong(before.actions + step.actions, step.revealed) && NoRepeats(scene, before.actions + step.actions)
  {
  }

  ghost predicate OnlyWantsReveal(cues: seq<Cue>) {
    forall c :: c in cues && c.Do? ==> !c.action.Reveal?
  }

  lemma {:induction false} StageKeeps(scene: Scene, cues: seq<Cue>)
    requires OnlyWantsReveal(cues)
    ensures var s := Stage(scene, {}, cues); AllAmong(s.actions, s.revealed) && NoRepeats(scene, s.actions)
  {
    hide StageOne, NoRepeats, AllAmong;
    if cues == [] {
      assert AllAmong([], {}) && NoRepeats(scene, []) by {
        NothingRepeats(scene);
      }
    } else {
      var front, last := cues[..|cues| - 1], cues[|cues| - 1];
      assert last in cues;
      StageKeeps(scene, front);
      StageOneKeeps(scene, Stage(scene, {}, front), last);
    }
  }

  lemma NothingRepeats(scene: Scene)
    ensures AllAmong([], {}) && NoRepeats(scene, [])
  {
  }

  lemma OnlyWantsConcat(a: seq<Cue>, b: seq<Cue>)
    requires OnlyWantsReveal(a) && OnlyWantsReveal(b)
    ensures OnlyWantsReveal(a + b)
  {
  }

  lemma BeatOnlyWants(plan: Plan, i: nat)
    requires i < |plan.beats|
    ensures OnlyWantsReveal(Cues(plan, i))
  {
  }

  lemma {:induction false} LessonOnlyWants(plan: Plan, n: nat)
    requires n <= |plan.beats|
    ensures OnlyWantsReveal(CuesUpTo(plan, n))
  {
    hide Cues;
    if n > 0 {
      LessonOnlyWants(plan, n - 1);
      BeatOnlyWants(plan, n - 1);
      OnlyWantsConcat(CuesUpTo(plan, n - 1), Cues(plan, n - 1));
    }
  }

  /** Across separate reveal actions of a whole lesson no target repeats, and no
      part that is not deferred follows its whole visual. */
  lemma LessonNeverRepeats(plan: Plan)
    ensures NoRepeats(plan.scene, Lesson(plan, |plan.beats|).actions)
  {
    LessonOnlyWants(plan, |plan.beats|);
    StageKeeps(plan.scene, CuesUpTo(plan, |plan.beats|));
  }

  // ----- everything asked for is revealed -----

  lemma {:induction false} RevealedGrows(scene: Scene, revealed: set<Target>, cues: seq<Cue>)
    ensures revealed <= Stage(scene, revealed, cues).revealed
  {
    if cues != [] {
      RevealedGrows(scene, revealed, cues[..|cues| - 1]);
    }
  }

  /** After a beat every target it named is on screen. */
  lemma BeatTargetsRevealed(plan: Plan, i: nat, t: Target)
    requires i < |plan.beats| && t in plan.beats[i].targets
    ensures IsRevealed(plan.scene, Lesson(plan, i + 1).revealed, t)
  {
    var before := Lesson(plan, i);
    var cues := Cues(plan, i);
    var first := StageOne(plan.scene, before.revealed, cues[0]);
    assert IsRevealed(plan.scene, first.revealed, t);
    assert cues == [cues[0]] + cues[1..];
    StageConcat(plan.scene, {}, CuesUpTo(plan, i), cues);
    StageConcat(plan.scene, before.revealed, [cues[0]], cues[1..]);
    StageSingle(plan.scene, before.revealed, cues[0]);
    RevealedGrows(plan.scene, first.revealed, cues[1..]);
  }

  lemma StageSingle(scene: Scene, revealed: set<Target>, cue: Cue)
    ensures Stage(scene, revealed, [cue]) == StageOne(scene, revealed, cue)
  {
    assert [cue][..0] == [];
    assert Stage(scene, revealed, []) == Staged([], revealed);
  }

  // ----- the answer -----

  /** How many reveal actions bring this very target. */
  function RevealsOf(actions: seq<Action>, t: Target): nat {
    if actions == [] then 0
    else
      var last := actions[|actions| - 1];
      RevealsOf(actions[..|actions| - 1], t) + (if last.Reveal? && t in last.targets then 1 else 0)
  }

  function Times(actions: seq<Action>, action: Action): nat {
    if actions == [] then 0
    else Times(actions[..|actions| - 1], action) + (if actions[|actions| - 1] == action then 1 else 0)
  }

  lemma {:induction false} RevealsOfConcat(a: seq<Action>, b: seq<Action>, t: Target)
    ensures RevealsOf(a + b, t) == RevealsOf(a, t) + RevealsOf(b, t)
  {
    if b == [] {
      assert a + b == a;
    } else {
      assert (a + b)[..|a + b| - 1] == a + b[..|b| - 1];
      RevealsOfConcat(a, b[..|b| - 1], t);
    }
  }

  lemma {:induction false} TimesConcat(a: seq<Action>, b: seq<Action>, action: Action)
    ensures Times(a + b, action) == Times(a, action) + Times(b, action)
  {
    if b == [] {
      assert a + b == a;
    } else {
      assert (a + b)[..|a + b| - 1] == a + b[..|b| - 1];
      TimesConcat(a, b[..|b| - 1], action);
    }
  }

  /** A whole visual is revealed by exactly one action once it is revealed. */
  lemma {:induction false} WholeRevealedOnce(scene: Scene, revealed: set<Target>, cues: seq<Cue>, t: Target)
    requires t.Whole() && OnlyWantsReveal(cues)
    ensures
      var s := Stage(scene, revealed, cues);
      RevealsOf(s.actions, t) == if t in s.revealed && t !in revealed then 1 else 0
  {
    hide Pending;
    if cues != [] {
      var front, last := cues[..|cues| - 1], cues[|cues| - 1];
      assert last in cues;
      WholeRevealedOnce(scene, revealed, front, t);
      RevealedGrows(scene, revealed, front);
      var before := Stage(scene, revealed, front);
      var step := StageOne(scene, before.revealed, last);
      assert t.WholeOf() == t;
      RevealsOfConcat(before.actions, step.actions, t);
      assert step.actions != [] ==> step.actions == [step.actions[0]] && step.actions[..0] == [];
    }
  }

  lemma {:induction false} LessonGrows(plan: Plan, m: nat, n: nat)
    requires m <= n <= |plan.beats|
    ensures Lesson(plan, m).revealed <= Lesson(plan, n).revealed
    decreases n - m
  {
    hide Stage, Cues;
    if m < n {
      LessonGrows(plan, m, n - 1);
      StageConcat(plan.scene, {}, CuesUpTo(plan, n - 1), Cues(plan, n - 1));
      RevealedGrows(plan.scene, Lesson(plan, n - 1).revealed, Cues(plan, n - 1));
    }
  }

  lemma FirstBeatCues(plan: Plan) returns (before: seq<Cue>, after: seq<Cue>)
    requires plan.beats != [] && AnswerDeclared(plan)
    ensures CuesUpTo(plan, 1) == before + ([Want([ANSWER])] + after)
  {
    var beat := plan.beats[0];
    before := [Want(beat.targets)] + KindCues(plan, beat) + RayCues(plan, beat) + LabelCues(plan, beat)
    + Wants(beat.customReveals);
    after := WorkCues(plan, beat);
    assert CuesUpTo(plan, 0) == [];
    assert CuesUpTo(plan, 1) == [] + Cues(plan, 0);
    assert Cues(plan, 0) == before + AnswerCues(plan, 0) + after;
  }

  lemma AnswerInFirstBeat(plan: Plan)
    requires plan.beats != [] && AnswerDeclared(plan)
    ensures ANSWER in Lesson(plan, 1).revealed
  {
    var before, after := FirstBeatCues(plan);
    hide CuesUpTo, Stage;
    var staged := Stage(plan.scene, {}, before);
    StageConcat(plan.scene, {}, before, [Want([ANSWER])] + after);
    StageConcat(plan.scene, staged.revealed, [Want([ANSWER])], after);
    StageSingle(plan.scene, staged.revealed, Want([ANSWER]));
    var step := StageOne(plan.scene, staged.revealed, Want([ANSWER]));
    assert ANSWER.WholeOf() == ANSWER && ANSWER in [ANSWER];
    RevealedGrows(plan.scene, step.revealed, after);
  }

  /** The answer is revealed by exactly one action, and that is in the first beat. */
  lemma AnswerRevealedOnce(plan: Plan)
    requires plan.beats != [] && AnswerDeclared(plan)
    ensures RevealsOf(Lesson(plan, 1).actions, ANSWER) == 1
    ensures RevealsOf(Lesson(plan, |plan.beats|).actions, ANSWER) == 1
  {
    AnswerInFirstBeat(plan);
    LessonGrows(plan, 1, |plan.beats|);
    LessonOnlyWants(plan, 1);
    LessonOnlyWants(plan, |plan.beats|);
    WholeRevealedOnce(plan.scene, {}, CuesUpTo(plan, 1), ANSWER);
    WholeRevealedOnce(plan.scene, {}, CuesUpTo(plan, |plan.beats|), ANSWER);
  }

  // ----- work and value -----

  function CueTimes(cues: seq<Cue>, action: Action): nat {
    if cues == [] then 0
    else CueTimes(cues[..|cues| - 1], action) + (if cues[|cues| - 1] == Do(action) then 1 else 0)
  }

  lemma {:induction false} CueTimesConcat(a: seq<Cue>, b: seq<Cue>, action: Action)
    ensures CueTimes(a + b, action) == CueTimes(a, action) + CueTimes(b, action)
  {
    if b == [] {
      assert a + b == a;
    } else {
      assert (a + b)[..|a + b| - 1] == a + b[..|b| - 1];
      CueTimesConcat(a, b[..|b| - 1], action);
    }
  }

  lemma {:induction false} WantsDoNothing(lists: seq<seq<Target>>, action: Action)
    ensures CueTimes(Wants(lists), action) == 0
  {
    if lists != [] {
      assert Wants(lists)[..|lists| - 1] == Wants(lists[..|lists| - 1]);
      WantsDoNothing(lists[..|lists| - 1], action);
    }
  }

  lemma StepTimes(scene: Scene, revealed: set<Target>, cue: Cue, action: Action)
    requires !action.Reveal?
    ensures Times(StageOne(scene, revealed, cue).actions, action) == if cue == Do(action) then 1 else 0
  {
    hide Pending;
    var actions := StageOne(scene, revealed, cue).actions;
    assert actions != [] ==> actions == [actions[0]] && actions[..0] == [];
  }

  lemma {:induction false} StageTimes(scene: Scene, revealed: set<Target>, cues: seq<Cue>, action: Action)
    requires !action.Reveal?
    ensures Times(Stage(scene, revealed, cues).actions, action) == CueTimes(cues, action)
  {
    if cues != [] {
      hide StageOne, Times;
      var front, last := cues[..|cues| - 1], cues[|cues| - 1];
      StageTimes(scene, revealed, front, action);
      var before := Stage(scene, revealed, front);
      TimesConcat(before.actions, StageOne(scene, before.revealed, last).actions, action);
      StepTimes(scene, before.revealed, last, action);
    } else {
      assert Stage(scene, revealed, cues).actions == [];
    }
  }

  /** How many of the first n beats carry this id. */
  function WithId(beats: seq<Beat>, id: BeatId): nat {
    if beats == [] then 0 else WithId(beats[..|beats| - 1], id) + (if beats[|beats| - 1].id == id then 1 else 0)
  }

  lemma OneCue(cues: seq<Cue>, action: Action)
    requires |cues| <= 1
    ensures CueTimes(cues, action) == if cues == [Do(action)] then 1 else 0
  {
    if cues != [] {
      assert cues == [cues[0]] && cues[..0] == [];
    }
  }

  /** Only three kinds of cue in a beat do something other than asking for targets. */
  lemma BeatCueTimes(plan: Plan, i: nat, action: Action)
    requires i < |plan.beats|
    ensures
      var beat := plan.beats[i];
      CueTimes(Cues(plan, i), action)
      == CueTimes(KindCues(plan, beat), action) + CueTimes(LabelCues(plan, beat), action)
      + CueTimes(WorkCues(plan, beat), action)
  {
    var beat := plan.beats[i];
    var a, b := [Want(beat.targets)], KindCues(plan, beat);
    var c, d := RayCues(plan, beat), LabelCues(plan, beat);
    var e, f, g := Wants(beat.customReveals), AnswerCues(plan, i), WorkCues(plan, beat);
    CueTimesConcat(a, b, action);
    CueTimesConcat(a + b, c, action);
    CueTimesConcat(a + b + c, d, action);
    CueTimesConcat(a + b + c + d, e, action);
    CueTimesConcat(a + b + c + d + e, f, action);
    CueTimesConcat(a + b + c + d + e + f, g, action);
    OneCue(a, action);
    OneCue(c, action);
    OneCue(f, action);
    WantsDoNothing(beat.customReveals, action);
  }

  lemma BeatStages(plan: Plan, i: nat)
    requires i < |plan.beats|
    ensures CueTimes(Cues(plan, i), ShowWork) == if WorkBeat(plan) == Some(plan.beats[i].id) then 1 else 0
    ensures CueTimes(Cues(plan, i), ShowValue) == |KindCues(plan, plan.beats[i])|
    ensures CueTimes(Cues(plan, i), RevealLabels(plan.primary))
         == if plan.unitLabels == Some(plan.beats[i].id) then 1 else 0
  {
    var beat := plan.beats[i];
    hide WorkBeat, Cues;
    forall action | action in {ShowWork, ShowValue, RevealLabels(plan.primary)}
      ensures CueTimes(Cues(plan, i), action)
           == (if KindCues(plan, beat) == [Do(action)] then 1 else 0)
              + (if LabelCues(plan, beat) == [Do(action)] then 1 else 0)
              + (if WorkCues(plan, beat) == [Do(action)] then 1 else 0)
    {
      BeatCueTimes(plan, i, action);
      OneCue(KindCues(plan, beat), action);
      OneCue(LabelCues(plan, beat), action);
      OneCue(WorkCues(plan, beat), action);
    }
    assert ShowWork in {ShowWork, ShowValue, RevealLabels(plan.primary)}
           && ShowValue in {ShowWork, ShowValue, RevealLabels(plan.primary)}
           && RevealLabels(plan.primary) in {ShowWork, ShowValue, RevealLabels(plan.primary)};
  }

  /** The arithmetic is shown once per beat carrying the work beat's id. */
  lemma {:induction false} WorkShown(plan: Plan, n: nat)
    requires n <= |plan.beats|
    ensures Times(Lesson(plan, n).actions, ShowWork)
         == if WorkBeat(plan).Some? then WithId(plan.beats[..n], WorkBeat(plan).value) else 0
  {
    hide Cues, WorkBeat, Stage;
    StageTimes(plan.scene, {}, CuesUpTo(plan, n), ShowWork);
    if n > 0 {
      WorkShown(plan, n - 1);
      StageTimes(plan.scene, {}, CuesUpTo(plan, n - 1), ShowWork);
      CueTimesConcat(CuesUpTo(plan, n - 1), Cues(plan, n - 1), ShowWork);
      BeatStages(plan, n - 1);
      assert plan.beats[..n][..n - 1] == plan.beats[..n - 1];
    }
  }

  /** The conclusion is the last beat and the only one of its kind, a focus or
      derivation precedes it, and no strategy stages it. */
  ghost predicate WellFormed(plan: Plan) {
    && plan.beats != []
    && (forall i :: 0 <= i < |plan.beats| ==> (plan.beats[i].kind.Conclude? <==> i == |plan.beats| - 1))
    && (exists i :: 0 <= i < |plan.beats| && (plan.beats[i].kind.Focus? || plan.beats[i].kind.Derive?))
    && forall id :: id in plan.owned ==> exists i :: 0 <= i < |plan.beats| - 1 && plan.beats[i].id == id
  }

  ghost predicate DistinctIds(beats: seq<Beat>) {
    forall i, j :: 0 <= i < j < |beats| ==> beats[i].id != beats[j].id
  }

  lemma {:induction false} ValueShown(plan: Plan, n: nat)
    requires WellFormed(plan) && DistinctIds(plan.beats) && !plan.pairElimination && n <= |plan.beats|
    ensures Times(Lesson(plan, n).actions, ShowValue) == if n == |plan.beats| then 1 else 0
  {
    hide Cues, Stage;
    StageTimes(plan.scene, {}, CuesUpTo(plan, n), ShowValue);
    if n > 0 {
      ValueShown(plan, n - 1);
      StageTimes(plan.scene, {}, CuesUpTo(plan, n - 1), ShowValue);
      CueTimesConcat(CuesUpTo(plan, n - 1), Cues(plan, n - 1), ShowValue);
      BeatStages(plan, n - 1);
    }
  }

  lemma {:induction false} LastDerivationAt(beats: seq<Beat>, i: nat) returns (w: nat)
    requires i < |beats| && (beats[i].kind.Focus? || beats[i].kind.Derive?)
    ensures w < |beats| && LastDerivation(beats) == Some(beats[w].id)
    ensures beats[w].kind.Focus? || beats[w].kind.Derive?
    ensures forall k :: w < k < |beats| ==> !beats[k].kind.Focus? && !beats[k].kind.Derive?
  {
    var last := beats[|beats| - 1];
    if last.kind.Focus? || last.kind.Derive? {
      w := |beats| - 1;
    } else {
      w := LastDerivationAt(beats[..|beats| - 1], i);
    }
  }

  lemma {:induction false} WithIdOnce(beats: seq<Beat>, w: nat, n: nat)
    requires DistinctIds(beats) && w < |beats| && n <= |beats|
    ensures WithId(beats[..n], beats[w].id) == if w < n then 1 else 0
  {
    if n > 0 {
      WithIdOnce(beats, w, n - 1);
      assert beats[..n][..n - 1] == beats[..n - 1];
    }
  }

  /** Outside pair elimination, with distinct beat ids: the arithmetic is shown
      exactly once if there is any, the value exactly once, the first strictly
      before the conclusion and the second in it. */
  lemma WorkThenValue(plan: Plan)
    requires WellFormed(plan) && DistinctIds(plan.beats) && !plan.pairElimination
    ensures
      var n := |plan.beats|;
      && Times(Lesson(plan, n).actions, ShowWork) == (if plan.hasOperation then 1 else 0)
      && Times(Lesson(plan, n - 1).actions, ShowWork) == Times(Lesson(plan, n).actions, ShowWork)
      && Times(Lesson(plan, n).actions, ShowValue) == 1
      && Times(Lesson(plan, n - 1).actions, ShowValue) == 0
  {
    hide Lesson, Times;
    var n := |plan.beats|;
    WorkShown(plan, n);
    WorkShown(plan, n - 1);
    ValueShown(plan, n);
    ValueShown(plan, n - 1);
    assert plan.beats[..n] == plan.beats;
    if plan.hasOperation {
      var i :| 0 <= i < n && (plan.beats[i].kind.Focus? || plan.beats[i].kind.Derive?);
      assert i < n - 1;
      var w := LastDerivationAt(plan.beats[..n - 1], i);
      WithIdOnce(plan.beats, w, n);
      WithIdOnce(plan.beats, w, n - 1);
    }
  }

  // ----- the label reveal that bypasses the bookkeeping -----

  const LABEL_PART := "target_label"

  function Labels(visual: BeatRoles.Ref): Target {
    BeatRoles.Target(visual, Some(LABEL_PART), None)
  }

  /** What an action brings on screen. */
  function Brought(a: Action): seq<Target> {
    match a
    case Reveal(targets) => targets
    case RevealLabels(visual) => [Labels(visual)]
    case _ => []
  }

  ghost predicate Avoids(targets: seq<Target>) {
    forall t :: t in targets ==> t.part != Some(LABEL_PART)
  }

  /** When a strategy stages the labels of a visual whose labels are deferred, the
      plan itself names none of them. */
  ghost predicate LabelsOwned(plan: Plan) {
    plan.unitLabels.Some? ==>
      && plan.scene.Deferred(Labels(plan.primary))
      && forall i :: 0 <= i < |plan.beats| ==>
                       Avoids(plan.beats[i].targets) && forall k :: 0 <= k < |plan.beats[i].customReveals| ==>
                                                                      Avoids(plan.beats[i].customReveals[k])
  }

  ghost predicate CuesAvoid(plan: Plan, cues: seq<Cue>) {
    forall c :: c in cues ==>
                  && (c.Want? && plan.unitLabels.Some? ==> Avoids(c.targets))
                  && (c.Do? && c.action.RevealLabels? ==> plan.unitLabels.Some? && c.action.visual == plan.primary)
  }

  ghost predicate ActionsAvoid(plan: Plan, actions: seq<Action>) {
    forall a :: a in actions ==>
                  && (a.Reveal? && plan.unitLabels.Some? ==> Avoids(a.targets))
                  && (a.RevealLabels? ==> plan.unitLabels.Some? && a.visual == plan.primary)
  }

  lemma {:induction false} StageAvoids(plan: Plan, revealed: set<Target>, cues: seq<Cue>)
    requires CuesAvoid(plan, cues) && OnlyWantsReveal(cues)
    ensures ActionsAvoid(plan, Stage(plan.scene, revealed, cues).actions)
  {
    if cues != [] {
      var front, last := cues[..|cues| - 1], cues[|cues| - 1];
      assert last in cues;
      StageAvoids(plan, revealed, front);
    }
  }

  lemma CuesAvoidConcat(plan: Plan, a: seq<Cue>, b: seq<Cue>)
    requires CuesAvoid(plan, a) && CuesAvoid(plan, b)
    ensures CuesAvoid(plan, a + b)
  {
  }

  lemma BeatAvoids(plan: Plan, i: nat)
    requires LabelsOwned(plan) && i < |plan.beats|
    ensures CuesAvoid(plan, Cues(plan, i))
  {
    var beat := plan.beats[i];
    var a, b := [Want(beat.targets)], KindCues(plan, beat);
    var c, d := RayCues(plan, beat), LabelCues(plan, beat);
    var e, f, g := Wants(beat.customReveals), AnswerCues(plan, i), WorkCues(plan, beat);
    assert CuesAvoid(plan, a) && CuesAvoid(plan, b) && CuesAvoid(plan, c) && CuesAvoid(plan, d);
    assert CuesAvoid(plan, e) && CuesAvoid(plan, f) && CuesAvoid(plan, g);
    hide CuesAvoid;
    CuesAvoidConcat(plan, a, b);
    CuesAvoidConcat(plan, a + b, c);
    CuesAvoidConcat(plan, a + b + c, d);
    CuesAvoidConcat(plan, a + b + c + d, e);
    CuesAvoidConcat(plan, a + b + c + d + e, f);
    CuesAvoidConcat(plan, a + b + c + d + e + f, g);
  }

  lemma {:induction false} LessonAvoids(plan: Plan, n: nat)
    requires LabelsOwned(plan) && n <= |plan.beats|
    ensures CuesAvoid(plan, CuesUpTo(plan, n))
  {
    hide Cues;
    if n > 0 {
      LessonAvoids(plan, n - 1);
      BeatAvoids(plan, n - 1);
      CuesAvoidConcat(plan, CuesUpTo(plan, n - 1), Cues(plan, n - 1));
    }
  }

  lemma {:induction false} LabelsShown(plan: Plan, n: nat)
    requires n <= |plan.beats|
    ensures Times(Lesson(plan, n).actions, RevealLabels(plan.primary))
         == if plan.unitLabels.Some? then WithId(plan.beats[..n], plan.unitLabels.value) else 0
  {
    hide Cues, WorkBeat, Stage;
    var action := RevealLabels(plan.primary);
    StageTimes(plan.scene, {}, CuesUpTo(plan, n), action);
    if n > 0 {
      LabelsShown(plan, n - 1);
      StageTimes(plan.scene, {}, CuesUpTo(plan, n - 1), action);
      CueTimesConcat(CuesUpTo(plan, n - 1), Cues(plan, n - 1), action);
      BeatStages(plan, n - 1);
      assert plan.beats[..n][..n - 1] == plan.beats[..n - 1];
    }
  }

  lemma {:induction false} TwiceCounted(actions: seq<Action>, i: nat, j: nat)
    requires i < j < |actions| && actions[i] == actions[j]
    ensures Times(actions, actions[i]) >= 2
  {
    var front, last := actions[..|actions| - 1], |actions| - 1;
    if j < last {
      TwiceCounted(front, i, j);
    } else {
      OnceCounted(front, i);
    }
  }

  lemma {:induction false} OnceCounted(actions: seq<Action>, i: nat)
    requires i < |actions|
    ensures Times(actions, actions[i]) >= 1
  {
    if i < |actions| - 1 {
      OnceCounted(actions[..|actions| - 1], i);
    }
  }

  lemma {:induction false} AtMostOneWithId(beats: seq<Beat>, id: BeatId)
    requires DistinctIds(beats)
    ensures WithId(beats, id) <= 1
    ensures WithId(beats, id) == 1 ==> exists i :: 0 <= i < |beats| && beats[i].id == id
  {
    if beats != [] {
      AtMostOneWithId(beats[..|beats| - 1], id);
    }
  }

  /** Across all reveal actions, the strategy's own label reveal included, no target
      repeats and no part that is not deferred follows its whole visual. */
  lemma NothingRevealedTwice(plan: Plan, i: nat, j: nat, t: Target, u: Target)
    requires LabelsOwned(plan) && DistinctIds(plan.beats)
    requires i < j < |Lesson(plan, |plan.beats|).actions|
    requires t in Brought(Lesson(plan, |plan.beats|).actions[i])
    requires u in Brought(Lesson(plan, |plan.beats|).actions[j])
    ensures !Brings(plan.scene, t, u)
  {
    var n := |plan.beats|;
    var actions := Lesson(plan, n).actions;
    LessonNeverRepeats(plan);
    LessonOnlyWants(plan, n);
    LessonAvoids(plan, n);
    StageAvoids(plan, {}, CuesUpTo(plan, n));
    LabelsShown(plan, n);
    assert plan.beats[..n] == plan.beats;
    if plan.unitLabels.Some? {
      AtMostOneWithId(plan.beats, plan.unitLabels.value);
    }
    hide Lesson, Times, WithId, DistinctIds;
    assert actions[i] in actions && actions[j] in actions;
    if actions[i].RevealLabels? && actions[j].RevealLabels? {
      TwiceCounted(actions, i, j);
    } else if actions[i].Reveal? && actions[j].Reveal? {
      assert !Overlaps(plan.scene, actions[i], actions[j]);
    }
  }

  // ----- the expander -----

  /** The reveals of all beats, one list per beat. */
  function Flatten(expanded: seq<seq<Action>>): seq<Action> {
    if expanded == [] then [] else Flatten(expanded[..|expanded| - 1]) + expanded[|expanded| - 1]
  }

  class BeatExpander {
    const plan: Plan
    var revealed: set<Target>

    constructor (plan: Plan)
      ensures revealed == {} && this.plan == plan
    {
      this.plan := plan;
      revealed := {};
    }

    method RevealUnrevealed(targets: seq<Target>) returns (actions: seq<Action>)
      modifies this`revealed
      ensures Staged(actions, revealed) == StageOne(plan.scene, old(revealed), Want(targets))
    {
      var pending: seq<Target> := [];
      for k := 0 to |targets|
        invariant pending == Pending(plan.scene, revealed, targets[..k])
      {
        assert targets[..k + 1][..k] == targets[..k];
        if !IsRevealed(plan.scene, revealed, targets[k]) {
          pending := pending + [targets[k]];
        }
      }
      assert targets[..|targets|] == targets;
      if pending == [] {
        return [];
      }
      revealed := revealed + SetOf(pending);
      return [Reveal(pending)];
    }

    /** Play the cues of one beat in order. */
    method RunCues(cues: seq<Cue>) returns (actions: seq<Action>)
      modifies this`revealed
      ensures Staged(actions, revealed) == Stage(plan.scene, old(revealed), cues)
    {
      actions := [];
      for k := 0 to |cues|
        invariant Staged(actions, revealed) == Stage(plan.scene, old(revealed), cues[..k])
      {
        hide StageOne;
        assert cues[..k + 1][..k] == cues[..k];
        var more: seq<Action>;
        match cues[k] {
          case Want(targets) =>
            more := RevealUnrevealed(targets);
          case Do(action) =>
            more := [action];
            DoAddsAction(plan.scene, revealed, action);
        }
        actions := actions + more;
      }
      assert cues[..|cues|] == cues;
    }

    method Expand() returns (expanded: seq<seq<Action>>)
      requires revealed == {}
      modifies this`revealed
      ensures |expanded| == |plan.beats|
      ensures Flatten(expanded) == Lesson(plan, |plan.beats|).actions
      ensures forall n :: 0 <= n <= |plan.beats| ==> Flatten(expanded[..n]) == Lesson(plan, n).actions
    {
      hide Stage, Cues;
      expanded := [];
      assert Lesson(plan, 0) == Staged([], {}) by {
        NothingStaged(plan.scene);
      }
      for i := 0 to |plan.beats|
        invariant |expanded| == i && revealed == Lesson(plan, i).revealed
        invariant forall n :: 0 <= n <= i ==> Flatten(expanded[..n]) == Lesson(plan, n).actions
      {
        var actions := RunCues(Cues(plan, i));
        StageConcat(plan.scene, {}, CuesUpTo(plan, i), Cues(plan, i));
        ghost var before := expanded;
        expanded := expanded + [actions];
        assert expanded[..i] == before && before[..i] == before;
        assert expanded[..i + 1] == expanded;
        assert forall n :: 0 <= n <= i ==> expanded[..n] == before[..n];
      }
      assert expanded[..|expanded|] == expanded;
    }
  }

  lemma NothingStaged(scene: Scene)
    ensures Stage(scene, {}, []) == Staged([], {})
  {
  }

  lemma DoAddsAction(scene: Scene, revealed: set<Target>, action: Action)
    ensures StageOne(scene, revealed, Do(action)) == Staged([action], revealed)
  {
  }
}
