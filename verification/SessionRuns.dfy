/** Whole runs of the session store: renderers reserve, write, register and abort,
    caps evict, sessions are opened, used and dropped, and outside the lock sweeps
    delete what an earlier snapshot did not track and dropped sessions lose their
    directory, in any interleaving. */
module SessionRuns {
  import opened Outcomes
  import opened SessionStore

  ghost predicate Enabled(s: Store, e: Step) {
    && (e.Register? ==> s.clock <= e.now <= e.later)
    && (e.Sweep? ==> e.keep in s.sweeps)
    && (e.Open? ==> e.newcomer !in s.sessions && e.newcomer !in s.dropped)
    && (e.RemoveTree? ==> e.owner in s.dropped && forall p :: p in e.files ==> Under(p, e.owner))
  }

  /** The registries live in memory: a run starts with them empty, whatever files
      an earlier process left behind. */
  ghost predicate Run(limits: Limits, states: seq<Store>, steps: seq<Step>) {
    && |states| == |steps| + 1
    && states[0].shelf == Shelf([], []) && states[0].reserved == {} && states[0].sweeps == {}
    && states[0].sessions == [] && states[0].dropped == {}
    && forall k :: 0 <= k < |steps| ==> Enabled(states[k], steps[k]) && states[k + 1] == Apply(limits, states[k], steps[k])
  }

  function LivePaths(s: Store): set<Path> {
    Live(s.shelf, s.reserved)
  }

  /** The ways to delete a file without asking what names it now. */
  predicate Removes(e: Step, p: Path) {
    || (e.Sweep? && p in e.files && p !in e.keep)
    || (e.Abort? && e.path == p)
    || (e.RemoveTree? && p in e.files)
  }

  /** The two ways to become tracked. */
  predicate Tracks(e: Step, p: Path) {
    (e.Reserve? || e.Register?) && e.path == p
  }

  // ----- one step -----

  lemma RegisterLooksAt(limits: Limits, s: Store, e: Step)
    requires e.Register? && e.path in s.disk
    ensures
      var n := Apply(limits, s, e);
      && LivePaths(n) <= LivePaths(s) + {e.path}
      && n.disk.Keys <= s.disk.Keys && LivePaths(n) * s.disk.Keys <= n.disk.Keys
  {
    hide Registered;
    RegisterNames(s.shelf, limits, Item(e.id, e.path, e.session, s.disk[e.path], e.now), e.clip, e.later);
  }

  lemma CapLooksAt(limits: Limits, s: Store, e: Step)
    requires e.CapAll? && e.maxBytes > 0
    ensures
      var n := Apply(limits, s, e);
      && LivePaths(n) <= LivePaths(s)
      && n.disk.Keys <= s.disk.Keys && LivePaths(n) * s.disk.Keys <= n.disk.Keys
  {
    hide Evict;
    EvictNames(s.shelf, Everyone, e.maxBytes);
  }

  lemma OpenLooksAt(limits: Limits, s: Store, e: Step)
    requires e.Open?
    ensures var n := Apply(limits, s, e); LivePaths(n) <= LivePaths(s) && n.disk == s.disk && Named(n.shelf) <= Named(s.shelf)
  {
    hide Select, Disowned, Named;
    DisownedEntries(s.shelf, (s.sessions + [e.newcomer])[0]);
  }

  /** A path stays live and on disk unless the step is a sweep whose snapshot did
      not track it, an abort of a path some entry names, or the removal of a dropped
      session's directory: none of the four eviction policies takes a file that is
      still named. */
  lemma LosesFileIff(limits: Limits, s: Store, e: Step, p: Path)
    requires p in s.disk && p in LivePaths(Apply(limits, s, e))
    ensures p !in Apply(limits, s, e).disk <==> Removes(e, p)
  {
    if e.Register? && e.path in s.disk {
      RegisterLooksAt(limits, s, e);
    } else if e.CapAll? && e.maxBytes > 0 {
      CapLooksAt(limits, s, e);
    } else if e.Open? {
      OpenLooksAt(limits, s, e);
    }
    hide AfterRegister, AfterCap, Live;
  }

  lemma OnlyTracked(limits: Limits, s: Store, e: Step, p: Path)
    requires p !in LivePaths(s) && p in LivePaths(Apply(limits, s, e))
    ensures Tracks(e, p)
  {
    if e.Register? && e.path in s.disk {
      RegisterLooksAt(limits, s, e);
    } else if e.CapAll? && e.maxBytes > 0 {
      CapLooksAt(limits, s, e);
    } else if e.Open? {
      OpenLooksAt(limits, s, e);
    }
    hide AfterRegister, AfterCap;
  }

  lemma SweepsGrow(limits: Limits, s: Store, e: Step)
    ensures Apply(limits, s, e).sweeps == s.sweeps + (if e.Snapshot? then {LivePaths(s)} else {})
  {
    hide Registered, Evict;
  }

  // ----- caps, over whole runs -----

  lemma StepWithinLimits(limits: Limits, s: Store, e: Step)
    requires WithinLimits(s.shelf, limits, s.clock) && Enabled(s, e)
    ensures WithinLimits(Apply(limits, s, e).shelf, limits, Apply(limits, s, e).clock)
  {
    hide WithinLimits, Registered, Evict, Unlinked, Live;
    if e.Register? {
      WithinLater(s.shelf, limits, s.clock, e.later);
      if e.path in s.disk {
        var item := Item(e.id, e.path, e.session, s.disk[e.path], e.now);
        RegisteredWithinLimits(s.shelf, limits, item, e.clip, e.later, s.clock);
      }
    } else if e.CapAll? && e.maxBytes > 0 {
      EvictWithinLimits(s.shelf, Everyone, e.maxBytes, limits, s.clock);
    } else if e.Open? {
      DisownedWithinLimits(s.shelf, (s.sessions + [e.newcomer])[0], limits, s.clock);
    }
  }

  /** Both count caps and the byte cap of every session hold in every reachable
      state, even where files have gone. */
  lemma {:induction false} RunWithinLimits(limits: Limits, states: seq<Store>, steps: seq<Step>, k: nat)
    requires Run(limits, states, steps) && k < |states|
    ensures WithinLimits(states[k].shelf, limits, states[k].clock)
  {
    hide Apply, Enabled;
    if k > 0 {
      RunWithinLimits(limits, states, steps, k - 1);
      StepWithinLimits(limits, states[k - 1], steps[k - 1]);
    }
  }

  // ----- which files survive -----

  /** A snapshot that misses a path live ever since an earlier moment was taken
      before that moment. */
  lemma {:induction false} MissedEarlier(limits: Limits, states: seq<Store>, steps: seq<Step>, m: nat, j: nat,
                                         p: Path, keep: set<Path>)
    requires Run(limits, states, steps) && m <= j < |states|
    requires forall k :: m <= k <= j ==> p in LivePaths(states[k])
    requires keep in states[j].sweeps && p !in keep
    ensures keep in states[m].sweeps
    decreases j
  {
    hide Apply, Enabled, LivePaths;
    if m < j {
      SweepsGrow(limits, states[j - 1], steps[j - 1]);
      MissedEarlier(limits, states, steps, m, j - 1, p, keep);
    }
  }

  /** While a path stays live its file stays exactly as long as no abort names it,
      no sweep whose snapshot was taken before the path became live reaches it, and
      no dropped session's directory holding it is removed. */
  lemma LiveFileStaysIff(limits: Limits, states: seq<Store>, steps: seq<Step>, m: nat, j: nat, p: Path)
    requires Run(limits, states, steps) && m <= j < |states|
    requires p in states[m].disk && forall k :: m <= k <= j ==> p in LivePaths(states[k])
    ensures (forall k :: m <= k <= j ==> p in states[k].disk) <==> (forall k :: m <= k < j ==> !Removes(steps[k], p))
    ensures forall k :: m <= k < j && steps[k].Sweep? && Removes(steps[k], p) ==> steps[k].keep in states[m].sweeps
    ensures forall k :: m <= k < j && steps[k].RemoveTree? && Removes(steps[k], p) ==>
                          steps[k].owner in states[k].dropped && Under(p, steps[k].owner)
  {
    hide Apply, LivePaths;
    if forall k :: m <= k <= j ==> p in states[k].disk {
      forall k | m <= k < j
        ensures !Removes(steps[k], p)
      {
        assert states[k + 1] == Apply(limits, states[k], steps[k]);
        LosesFileIff(limits, states[k], steps[k], p);
      }
    }
    if forall k :: m <= k < j ==> !Removes(steps[k], p) {
      StaysWhileSpared(limits, states, steps, m, j, p);
    }
    forall k | m <= k < j && steps[k].Sweep? && Removes(steps[k], p)
      ensures steps[k].keep in states[m].sweeps
    {
      MissedEarlier(limits, states, steps, m, k, p, steps[k].keep);
    }
  }

  lemma {:induction false} StaysWhileSpared(limits: Limits, states: seq<Store>, steps: seq<Step>, m: nat, j: nat, p: Path)
    requires Run(limits, states, steps) && m <= j < |states|
    requires p in states[m].disk && forall k :: m <= k <= j ==> p in LivePaths(states[k])
    requires forall k :: m <= k < j ==> !Removes(steps[k], p)
    ensures forall k :: m <= k <= j ==> p in states[k].disk
    decreases j
  {
    hide Apply, LivePaths, Enabled, Removes;
    if m < j {
      StaysWhileSpared(limits, states, steps, m, j - 1, p);
      assert states[j] == Apply(limits, states[j - 1], steps[j - 1]);
      LosesFileIff(limits, states[j - 1], steps[j - 1], p);
    }
  }

  // ----- what a sweep takes -----

  /** The path was untracked when the snapshot was taken at step i and became
      tracked at step k. */
  ghost predicate TrackedSince(states: seq<Store>, steps: seq<Step>, i: nat, k: nat, p: Path)
    requires i <= k < |steps| && |states| == |steps| + 1
  {
    Tracks(steps[k], p) && forall m :: i <= m <= k ==> p !in LivePaths(states[m])
  }

  /** Any deletion of a sweep at step j works from a snapshot taken at some earlier
      step i, and a file named at j is lost exactly when its path became tracked in
      between. Whatever was tracked at the snapshot is never disturbed. */
  lemma SweepTakesIff(limits: Limits, states: seq<Store>, steps: seq<Step>, j: nat, p: Path) returns (i: nat)
    requires Run(limits, states, steps) && j < |steps| && steps[j].Sweep?
    requires p in steps[j].files && p in states[j].disk && p in LivePaths(states[j])
    ensures i < j && steps[i].Snapshot? && steps[j].keep == LivePaths(states[i])
    ensures p !in states[j + 1].disk <==> exists k :: i < k < j && TrackedSince(states, steps, i, k, p)
  {
    hide LivePaths;
    assert states[j + 1] == Apply(limits, states[j], steps[j]) && Enabled(states[j], steps[j]);
    i := SweepHasSnapshot(limits, states, steps, j, steps[j].keep);
    if p !in LivePaths(states[i]) {
      var k := BecameTracked(limits, states, steps, i, j, p);
    }
  }

  lemma BecameTracked(limits: Limits, states: seq<Store>, steps: seq<Step>, i: nat, j: nat, p: Path) returns (k: nat)
    requires Run(limits, states, steps) && i < j < |steps| && steps[i].Snapshot?
    requires p !in LivePaths(states[i]) && p in LivePaths(states[j])
    ensures i < k < j && TrackedSince(states, steps, i, k, p)
  {
    k := i + 1;
    assert LivePaths(states[k]) == LivePaths(states[i]);
    hide Apply, LivePaths, Enabled;
    while p !in LivePaths(states[k + 1])
      invariant i < k < j && forall m :: i <= m <= k ==> p !in LivePaths(states[m])
      decreases j - k
    {
      k := k + 1;
    }
    OnlyTracked(limits, states[k], steps[k], p);
  }

  /** Every deletion of a sweep works from a snapshot some earlier step took. */
  lemma {:induction false} SweepHasSnapshot(limits: Limits, states: seq<Store>, steps: seq<Step>, j: nat, keep: set<Path>)
    returns (i: nat)
    requires Run(limits, states, steps) && j < |states| && keep in states[j].sweeps
    ensures i < j && steps[i].Snapshot? && keep == LivePaths(states[i])
  {
    hide Apply, LivePaths, Enabled;
    SweepsGrow(limits, states[j - 1], steps[j - 1]);
    if keep in states[j - 1].sweeps {
      i := SweepHasSnapshot(limits, states, steps, j - 1, keep);
    } else {
      i := j - 1;
    }
  }

  // ----- entries and their files -----

  ghost predicate EntriesServed(s: Store) {
    Named(s.shelf) <= s.disk.Keys
  }

  lemma StepServesIff(limits: Limits, s: Store, e: Step)
    requires EntriesServed(s)
    ensures EntriesServed(Apply(limits, s, e)) <==> forall p :: p in Named(s.shelf) ==> !Removes(e, p)
  {
    var n := Apply(limits, s, e);
    if e.Register? && e.path in s.disk {
      RegisterServes(limits, s, e);
    } else if e.CapAll? && e.maxBytes > 0 {
      hide Evict;
      EvictNames(s.shelf, Everyone, e.maxBytes);
    } else if e.Open? {
      OpenLooksAt(limits, s, e);
    }
    hide AfterRegister, AfterOpen;
  }

  lemma RegisterServes(limits: Limits, s: Store, e: Step)
    requires EntriesServed(s) && e.Register? && e.path in s.disk
    ensures EntriesServed(Apply(limits, s, e))
  {
    hide Registered;
    RegisterNames(s.shelf, limits, Item(e.id, e.path, e.session, s.disk[e.path], e.now), e.clip, e.later);
  }

  /** Every registered entry's file is on disk throughout a run exactly when no
      abort, sweep or directory removal ever takes a file an entry names at that
      moment. */
  lemma RunServesIff(limits: Limits, states: seq<Store>, steps: seq<Step>)
    requires Run(limits, states, steps)
    ensures
      (forall k :: 0 <= k < |states| ==> EntriesServed(states[k])) <==>
      forall k, p :: 0 <= k < |steps| && p in Named(states[k].shelf) ==> !Removes(steps[k], p)
  {
    hide Apply, Enabled, Removes;
    if forall k :: 0 <= k < |states| ==> EntriesServed(states[k]) {
      forall k, p | 0 <= k < |steps| && p in Named(states[k].shelf)
        ensures !Removes(steps[k], p)
      {
        assert states[k + 1] == Apply(limits, states[k], steps[k]);
        StepServesIff(limits, states[k], steps[k]);
      }
    }
    if forall k, p :: 0 <= k < |steps| && p in Named(states[k].shelf) ==> !Removes(steps[k], p) {
      for k := 0 to |steps|
        invariant forall i :: 0 <= i <= k ==> EntriesServed(states[i])
      {
        assert states[k + 1] == Apply(limits, states[k], steps[k]);
        StepServesIff(limits, states[k], steps[k]);
      }
    }
  }

  // ----- the session index -----

  /** When a session was last opened or looked up, among the first k steps. */
  function LastUse(steps: seq<Step>, k: nat, s: Session): int
    requires k <= |steps|
  {
    if k == 0 then -1
    else if steps[k - 1] == Open(s) || steps[k - 1] == Touch(s) then k - 1
    else LastUse(steps, k - 1, s)
  }

  ghost predicate ByUse(sessions: seq<Session>, steps: seq<Step>, k: nat)
    requires k <= |steps|
  {
    forall i, j :: 0 <= i < j < |sessions| ==> LastUse(steps, k, sessions[i]) < LastUse(steps, k, sessions[j])
  }

  lemma {:induction false} LastUseBefore(steps: seq<Step>, k: nat, s: Session)
    requires k <= |steps|
    ensures LastUse(steps, k, s) < k
  {
    if k > 0 {
      LastUseBefore(steps, k - 1, s);
    }
  }

  lemma {:induction false} OthersByUse(sessions: seq<Session>, s: Session, steps: seq<Step>, k: nat)
    requires k <= |steps| && ByUse(sessions, steps, k)
    ensures ByUse(Others(sessions, s), steps, k)
    ensures forall x :: x in Others(sessions, s) <==> x in sessions && x != s
    ensures |Others(sessions, s)| <= |sessions| && (s in sessions ==> |Others(sessions, s)| < |sessions|)
  {
    if sessions != [] {
      hide LastUse;
      assert forall x :: x in sessions <==> x == sessions[0] || x in sessions[1..];
      OthersByUse(sessions[1..], s, steps, k);
      FirstByUse(sessions, Others(sessions[1..], s), steps, k);
    }
  }

  lemma FirstByUse(sessions: seq<Session>, rest: seq<Session>, steps: seq<Step>, k: nat)
    requires k <= |steps| && ByUse(sessions, steps, k) && sessions != []
    requires ByUse(rest, steps, k) && forall x :: x in rest ==> x in sessions[1..]
    ensures ByUse([sessions[0]] + rest, steps, k)
  {
    hide LastUse;
    forall j | 0 <= j < |rest|
      ensures LastUse(steps, k, sessions[0]) < LastUse(steps, k, rest[j])
    {
      assert rest[j] in sessions[1..];
    }
  }

  /** The newly used session goes last: everything else was used before. */
  lemma UsedNow(sessions: seq<Session>, s: Session, steps: seq<Step>, k: nat)
    requires k < |steps| && (steps[k] == Open(s) || steps[k] == Touch(s))
    requires ByUse(sessions, steps, k) && s !in sessions
    ensures ByUse(sessions + [s], steps, k + 1)
  {
    var all := sessions + [s];
    forall i, j | 0 <= i < j < |all|
      ensures LastUse(steps, k + 1, all[i]) < LastUse(steps, k + 1, all[j])
    {
      LastUseBefore(steps, k, all[i]);
      assert all[i] == sessions[i] && all[i] in sessions;
      assert j < |sessions| ==> all[j] == sessions[j] && all[j] in sessions;
    }
  }

  ghost predicate IndexInv(limits: Limits, s: Store, steps: seq<Step>, k: nat)
    requires k <= |steps|
  {
    ByUse(s.sessions, steps, k) && |s.sessions| <= limits.maxSessions && forall x :: x in s.sessions ==> x !in s.dropped
  }

  lemma IndexStep(limits: Limits, s: Store, steps: seq<Step>, k: nat)
    requires k < |steps| && IndexInv(limits, s, steps, k) && Enabled(s, steps[k])
    ensures IndexInv(limits, Apply(limits, s, steps[k]), steps, k + 1)
  {
    hide LastUse, ByUse, Others, Registered, Evict, Disowned, Live;
    match steps[k] {
      case Open(x) =>
        UsedNow(s.sessions, x, steps, k);
        TailByUse(s.sessions + [x], steps, k + 1);
      case Touch(x) =>
        OthersByUse(s.sessions, x, steps, k);
        if x in s.sessions {
          UsedNow(Others(s.sessions, x), x, steps, k);
        } else {
          Unused(s.sessions, steps, k);
        }
      case _ =>
        Unused(s.sessions, steps, k);
    }
  }

  lemma TailByUse(sessions: seq<Session>, steps: seq<Step>, k: nat)
    requires k <= |steps| && sessions != [] && ByUse(sessions, steps, k)
    ensures ByUse(sessions[1..], steps, k) && sessions[0] !in sessions[1..]
  {
    hide LastUse;
    forall j | 0 <= j < |sessions| - 1
      ensures sessions[1..][j] != sessions[0]
    {
      assert LastUse(steps, k, sessions[0]) < LastUse(steps, k, sessions[j + 1]);
    }
  }

  lemma Unused(sessions: seq<Session>, steps: seq<Step>, k: nat)
    requires k < |steps| && ByUse(sessions, steps, k) && !steps[k].Open?
    requires steps[k].Touch? ==> steps[k].used !in sessions
    ensures ByUse(sessions, steps, k + 1)
  {
  }

  lemma {:induction false} RunIndex(limits: Limits, states: seq<Store>, steps: seq<Step>, k: nat)
    requires Run(limits, states, steps) && k < |states|
    ensures IndexInv(limits, states[k], steps, k)
  {
    hide Apply, Enabled, IndexInv;
    if k == 0 {
      NoSessions(limits, states[0], steps);
    } else {
      RunIndex(limits, states, steps, k - 1);
      IndexStep(limits, states[k - 1], steps, k - 1);
    }
  }

  lemma NoSessions(limits: Limits, s: Store, steps: seq<Step>)
    requires s.sessions == []
    ensures IndexInv(limits, s, steps, 0)
  {
  }

  /** The index never exceeds its cap, a dropped session is never in it again, and
      the session that opening drops was used longer ago than any other in it. */
  lemma OpenDropsLeastRecent(limits: Limits, states: seq<Store>, steps: seq<Step>, k: nat, s: Session)
    requires Run(limits, states, steps) && k < |steps| && steps[k].Open? && limits.maxSessions > 0
    requires s in states[k + 1].dropped && s !in states[k].dropped
    ensures |states[k + 1].sessions| == limits.maxSessions && s in states[k].sessions && s !in states[k + 1].sessions
    ensures forall x :: x in states[k].sessions && x != s ==> LastUse(steps, k, s) < LastUse(steps, k, x)
  {
    hide IndexInv, LastUse, Disowned;
    assert states[k + 1] == Apply(limits, states[k], steps[k]);
    RunIndex(limits, states, steps, k);
    RunIndex(limits, states, steps, k + 1);
    Capped(limits, states[k], steps, k);
    Capped(limits, states[k + 1], steps, k + 1);
    forall x | x in states[k].sessions && x != s
      ensures LastUse(steps, k, s) < LastUse(steps, k, x)
    {
      var j :| 0 <= j < |states[k].sessions| && states[k].sessions[j] == x;
      assert s == states[k].sessions[0];
    }
  }

  lemma Capped(limits: Limits, s: Store, steps: seq<Step>, k: nat)
    requires k <= |steps| && IndexInv(limits, s, steps, k)
    ensures ByUse(s.sessions, steps, k) && |s.sessions| <= limits.maxSessions
    ensures forall x :: x in s.sessions ==> x !in s.dropped
  {
  }

  // ----- runs that lose a file -----

  lemma FirstSnapshot(limits: Limits, s: Store)
    requires s.shelf == Shelf([], []) && s.reserved == {} && s.sweeps == {}
    ensures Apply(limits, s, Snapshot) == s.(sweeps := {{}})
  {
    assert LivePaths(s) == {};
    assert s.sweeps + {LivePaths(s)} == {{}};
  }

  /** A render reserved and written after a sweep's snapshot is deleted: it is in
      flight and its file is gone. */
  lemma SweepDisturbsRender(limits: Limits, p: Path) returns (states: seq<Store>, steps: seq<Step>)
    ensures Run(limits, states, steps) && steps == [Snapshot, Reserve(p), Write(p, 1), Sweep({}, {p})]
    ensures var last := states[|steps|]; p in last.reserved && p !in last.disk
  {
    var s0 := Store(Shelf([], []), {}, map[], 0, {}, [], {});
    var s1 := s0.(sweeps := {{}});
    var s2 := s1.(reserved := {p});
    var s3 := s2.(disk := map[p := 1]);
    steps := [Snapshot, Reserve(p), Write(p, 1), Sweep({}, {p})];
    states := [s0, s1, s2, s3, s2];
    FirstSnapshot(limits, s0);
    assert s1.reserved + {p} == {p};
    assert Apply(limits, s1, steps[1]) == s2 && Apply(limits, s2, steps[2]) == s3;
    assert Apply(limits, s3, steps[3]) == s2 by {
      assert s3.disk - {p} == s2.disk;
    }
    hide Apply;
  }

  /** A clip registered after a sweep's snapshot, or whose path is aborted
      afterwards, becomes an entry without a file. */
  lemma EntryLosesFile(p: Path, abort: bool) returns (limits: Limits, states: seq<Store>, steps: seq<Step>)
    ensures Run(limits, states, steps)
    ensures steps == [Snapshot, Write(p, 1), Register(p, None, "clip", 0, 0, true), if abort then Abort(p) else Sweep({}, {p})]
    ensures var last := states[|steps|]; p in Named(last.shelf) && p !in last.disk
  {
    limits := Limits(1, 1, 1, None, 1);
    var item := Item("clip", p, None, 1, 0);
    var s0 := Store(Shelf([], []), {}, map[], 0, {}, [], {});
    var s1 := s0.(sweeps := {{}});
    var s2 := s1.(disk := map[p := 1]);
    var s3 := s2.(shelf := Shelf([item], []));
    var s4 := s3.(disk := map[]);
    steps := [Snapshot, Write(p, 1), Register(p, None, "clip", 0, 0, true), if abort then Abort(p) else Sweep({}, {p})];
    states := [s0, s1, s2, s3, s4];
    FirstSnapshot(limits, s0);
    WriteOne(limits, s1, p);
    RegisterOne(limits, s2, item);
    LoseOne(limits, s3, p, abort);
    hide Apply;
    assert item in s4.shelf.clips;
  }

  lemma WriteOne(limits: Limits, s: Store, p: Path)
    requires s.disk == map[]
    ensures Apply(limits, s, Write(p, 1)) == s.(disk := map[p := 1])
  {
  }

  lemma LoseOne(limits: Limits, s: Store, p: Path, abort: bool)
    requires s.disk.Keys == {p} && s.reserved == {}
    ensures Apply(limits, s, if abort then Abort(p) else Sweep({}, {p})) == s.(disk := map[])
  {
    assert s.disk - {p} == map[];
  }

  lemma RegisterOne(limits: Limits, s: Store, item: Item)
    requires limits.maxClips > 0 && limits.ttl.None? && item.session.None?
    requires s.shelf == Shelf([], []) && s.reserved == {} && item.path in s.disk && s.disk[item.path] == item.size
    requires s.clock == item.created
    ensures Apply(limits, s, Register(item.path, None, item.id, item.created, item.created, true))
         == s.(shelf := Shelf([item], []))
  {
    assert [] + [item] == [item];
    assert Registered(s.shelf, limits, item, true, item.created) == Eviction(Shelf([item], []), []);
    assert s.disk - {} == s.disk;
  }

  /** A render in flight when its session is dropped loses its file to the removal
      of the directory, reserved or not. */
  lemma DroppedSessionLosesRender(limits: Limits, a: Session, b: Session) returns (states: seq<Store>, steps: seq<Step>, p: Path)
    requires limits.maxSessions == 1 && a != b
    ensures Run(limits, states, steps) && Under(p, a)
    ensures steps == [Open(a), Reserve(p), Write(p, 1), Open(b), RemoveTree(a, {p})]
    ensures var last := states[|steps|]; p in last.reserved && p !in last.disk
  {
    p := a + "/" + "clip";
    var s0 := Store(Shelf([], []), {}, map[], 0, {}, [], {});
    var s1 := s0.(sessions := [a]);
    var s2 := s1.(reserved := {p});
    var s3 := s2.(disk := map[p := 1]);
    var s4 := s3.(sessions := [b], dropped := {a});
    var s5 := s4.(disk := map[]);
    steps := [Open(a), Reserve(p), Write(p, 1), Open(b), RemoveTree(a, {p})];
    states := [s0, s1, s2, s3, s4, s5];
    assert s0.sessions + [a] == [a] && s1.reserved + {p} == {p};
    assert Apply(limits, s0, steps[0]) == s1 && Apply(limits, s1, steps[1]) == s2 && Apply(limits, s2, steps[2]) == s3;
    DropOnly(limits, s3, a, b);
    assert Apply(limits, s4, steps[4]) == s5 by {
      assert s4.disk - {p} == s5.disk;
    }
    hide Apply;
  }

  lemma DropOnly(limits: Limits, s: Store, a: Session, b: Session)
    requires limits.maxSessions == 1 && s.sessions == [a] && s.dropped == {} && s.shelf == Shelf([], [])
    ensures Apply(limits, s, Open(b)) == s.(sessions := [b], dropped := {a})
  {
    assert ([a] + [b])[1..] == [b] && s.dropped + {a} == {a};
  }
}
