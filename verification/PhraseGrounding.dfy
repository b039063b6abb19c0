/** Which source-owned phrases of a parameter set can be bound to the slide text:
    every phrase wants its own run of consecutive source tokens, and the solver
    binds as many phrases as possible to non-overlapping runs. */
module PhraseGrounding {
  import opened Collections
  import opened Outcomes

  /** Canonical key of a token: equal keys mean equal words or equal numbers. */
  type Key = string
  type Phrase = seq<Key>

  /** Character offsets into the normalised source; `end` is exclusive. */
  datatype Span = Span(start: int, end: int)
  datatype SourceToken = SourceToken(key: Key, span: Span)

  predicate Overlap(a: Span, b: Span) {
    a.start < b.end && b.start < a.end
  }

  // ----- candidate spans -----

  predicate MatchesAt(phrase: Phrase, tokens: seq<SourceToken>, i: int) {
    0 <= i <= |tokens| - |phrase| && forall k | 0 <= k < |phrase| :: tokens[i + k].key == phrase[k]
  }

  function SpanAt(phrase: Phrase, tokens: seq<SourceToken>, i: int): Span
    requires phrase != [] && 0 <= i <= |tokens| - |phrase|
  {
    Span(tokens[i].span.start, tokens[i + |phrase| - 1].span.end)
  }

  /** The spans of all matches starting before `limit`, in source order. */
  function SpansBefore(phrase: Phrase, tokens: seq<SourceToken>, limit: nat): seq<Span>
    requires phrase != []
  {
    if limit == 0 then []
    else
      SpansBefore(phrase, tokens, limit - 1)
      + (if MatchesAt(phrase, tokens, limit - 1) then [SpanAt(phrase, tokens, limit - 1)] else [])
  }

  function CandidateSpans(phrase: Phrase, tokens: seq<SourceToken>): seq<Span> {
    if phrase == [] then [] else SpansBefore(phrase, tokens, |tokens|)
  }

  lemma {:induction false} SpansBeforeAreMatches(phrase: Phrase, tokens: seq<SourceToken>, limit: nat, span: Span)
    requires phrase != []
    ensures span in SpansBefore(phrase, tokens, limit) <==>
            exists i :: 0 <= i < limit && MatchesAt(phrase, tokens, i) && span == SpanAt(phrase, tokens, i)
    decreases limit
  {
    if limit > 0 {
      SpansBeforeAreMatches(phrase, tokens, limit - 1, span);
    }
  }

  /** A candidate is exactly the extent of a consecutive run of matching tokens. */
  lemma CandidatesAreMatches(phrase: Phrase, tokens: seq<SourceToken>, span: Span)
    ensures span in CandidateSpans(phrase, tokens) <==>
            phrase != [] && exists i :: MatchesAt(phrase, tokens, i) && span == SpanAt(phrase, tokens, i)
  {
    if phrase != [] {
      SpansBeforeAreMatches(phrase, tokens, |tokens|, span);
    }
  }

  /** The candidates are the matching runs from left to right, each once. */
  lemma CandidatesInOrder(phrase: Phrase, tokens: seq<SourceToken>) returns (at: seq<nat>)
    requires phrase != []
    ensures Increasing(at) && |at| == |CandidateSpans(phrase, tokens)|
    ensures forall i: nat :: i in at <==> MatchesAt(phrase, tokens, i)
    ensures forall k :: 0 <= k < |at| ==>
                          MatchesAt(phrase, tokens, at[k]) && CandidateSpans(phrase, tokens)[k] == SpanAt(phrase, tokens, at[k])
  {
    at := MatchesBefore(phrase, tokens, |tokens|);
    MatchesBeforeIff(phrase, tokens, |tokens|);
    MatchesIncrease(phrase, tokens, |tokens|);
    assert forall k :: 0 <= k < |at| ==> at[k] in at;
    hide MatchesAt, SpanAt;
    forall k | 0 <= k < |at|
      ensures |SpansBefore(phrase, tokens, |tokens|)| == |at|
      ensures SpansBefore(phrase, tokens, |tokens|)[k] == SpanAt(phrase, tokens, at[k])
    {
      SpanOfMatch(phrase, tokens, |tokens|, k);
    }
    SameCount(phrase, tokens, |tokens|);
  }

  function MatchesBefore(phrase: Phrase, tokens: seq<SourceToken>, limit: nat): seq<nat> {
    if limit == 0 then []
    else MatchesBefore(phrase, tokens, limit - 1) + (if MatchesAt(phrase, tokens, limit - 1) then [limit - 1] else [])
  }

  lemma {:induction false} MatchesBeforeIff(phrase: Phrase, tokens: seq<SourceToken>, limit: nat)
    ensures forall i: nat :: i in MatchesBefore(phrase, tokens, limit) <==> i < limit && MatchesAt(phrase, tokens, i)
    decreases limit
  {
    if limit > 0 {
      MatchesBeforeIff(phrase, tokens, limit - 1);
      hide MatchesAt;
    }
  }

  lemma {:induction false} MatchesIncrease(phrase: Phrase, tokens: seq<SourceToken>, limit: nat)
    ensures Increasing(MatchesBefore(phrase, tokens, limit))
    decreases limit
  {
    if limit > 0 {
      MatchesIncrease(phrase, tokens, limit - 1);
      MatchesBeforeIff(phrase, tokens, limit - 1);
      hide MatchesAt, Increasing;
      IncreasingSnoc(MatchesBefore(phrase, tokens, limit - 1), limit - 1);
      var before := MatchesBefore(phrase, tokens, limit - 1);
      assert before + [] == before;
    }
  }

  lemma {:induction false} SameCount(phrase: Phrase, tokens: seq<SourceToken>, limit: nat)
    requires phrase != []
    ensures |SpansBefore(phrase, tokens, limit)| == |MatchesBefore(phrase, tokens, limit)|
    decreases limit
  {
    if limit > 0 {
      hide MatchesAt, SpanAt;
      SameCount(phrase, tokens, limit - 1);
    }
  }

  lemma {:induction false} SpanOfMatch(phrase: Phrase, tokens: seq<SourceToken>, limit: nat, k: nat)
    requires phrase != [] && k < |MatchesBefore(phrase, tokens, limit)|
    ensures MatchesAt(phrase, tokens, MatchesBefore(phrase, tokens, limit)[k])
    ensures |SpansBefore(phrase, tokens, limit)| == |MatchesBefore(phrase, tokens, limit)|
    ensures SpansBefore(phrase, tokens, limit)[k] == SpanAt(phrase, tokens, MatchesBefore(phrase, tokens, limit)[k])
    decreases limit
  {
    SameCount(phrase, tokens, limit);
    SameCount(phrase, tokens, limit - 1);
    hide MatchesAt, SpanAt;
    if k < |MatchesBefore(phrase, tokens, limit - 1)| {
      SpanOfMatch(phrase, tokens, limit - 1, k);
    }
  }

  method PhraseCandidateSpans(phrase: Phrase, tokens: seq<SourceToken>) returns (spans: seq<Span>)
    ensures spans == CandidateSpans(phrase, tokens)
  {
    if phrase == [] {
      return [];
    }
    spans := [];
    var start := 0;
    while start + |phrase| <= |tokens|
      invariant 0 <= start <= |tokens|
      invariant spans == SpansBefore(phrase, tokens, start)
    {
      var k := 0;
      while k < |phrase| && tokens[start + k].key == phrase[k]
        invariant 0 <= k <= |phrase|
        invariant forall j | 0 <= j < k :: tokens[start + j].key == phrase[j]
      {
        k := k + 1;
      }
      if k == |phrase| {
        spans := spans + [SpanAt(phrase, tokens, start)];
      }
      start := start + 1;
    }
    NoLateMatches(phrase, tokens, start, |tokens|);
  }

  lemma {:induction false} NoLateMatches(phrase: Phrase, tokens: seq<SourceToken>, start: nat, limit: nat)
    requires phrase != [] && start <= limit && start + |phrase| > |tokens|
    ensures SpansBefore(phrase, tokens, limit) == SpansBefore(phrase, tokens, start)
    decreases limit
  {
    if start < limit {
      NoLateMatches(phrase, tokens, start, limit - 1);
    }
  }

  // ----- assignments -----

  type Assignment = seq<Option<Span>>

  /** Phrases bound to one of their own candidates, no two runs overlapping. */
  predicate IsAssignment(candidates: seq<seq<Span>>, a: Assignment) {
    && |a| == |candidates|
    && (forall i | 0 <= i < |a| :: a[i].Some? ==> a[i].value in candidates[i])
    && (forall i, j | 0 <= i < |a| && 0 <= j < |a| && i != j ::
          a[i].Some? && a[j].Some? ==> !Overlap(a[i].value, a[j].value))
  }

  function Bound(a: Assignment): set<int> {
    set i | 0 <= i < |a| && a[i].Some?
  }

  function Grounded(a: Assignment): nat {
    |Bound(a)|
  }

  function Unbound(n: nat): (a: Assignment)
    ensures |a| == n && forall i | 0 <= i < n :: a[i] == None
  {
    seq(n, _ => None)
  }

  /** A visiting order: distinct phrase indices covering every phrase that has a candidate. */
  ghost predicate IsOrder(candidates: seq<seq<Span>>, order: seq<nat>) {
    && (forall k | 0 <= k < |order| :: order[k] < |candidates|)
    && (forall j, k | 0 <= j < k < |order| :: order[j] != order[k])
    && (forall i | 0 <= i < |candidates| && candidates[i] != [] :: i in order)
  }

  /** `a` makes the same choices as `current` for the first `depth` phrases. */
  predicate Agrees(a: Assignment, current: Assignment, order: seq<nat>, depth: nat)
    requires depth <= |order| && |a| == |current|
    requires forall k | 0 <= k < |order| :: order[k] < |current|
  {
    forall k | 0 <= k < depth :: a[order[k]] == current[order[k]]
  }

  /** The span may be taken by phrase i next to what is bound already. */
  predicate Free(span: Span, current: Assignment, i: nat) {
    forall j | 0 <= j < |current| && j != i && current[j].Some? :: !Overlap(span, current[j].value)
  }

  lemma GroundedUpdate(a: Assignment, i: nat, span: Span)
    requires i < |a| && a[i] == None
    ensures Grounded(a[i := Some(span)]) == Grounded(a) + 1
  {
    assert Bound(a[i := Some(span)]) == Bound(a) + {i};
  }

  /** An assignment that agrees so far can add at most one run per phrase left. */
  lemma GroundedBound(candidates: seq<seq<Span>>, order: seq<nat>, a: Assignment, current: Assignment, depth: nat)
    requires IsOrder(candidates, order) && depth <= |order|
    requires IsAssignment(candidates, a) && |current| == |a| && Agrees(a, current, order, depth)
    ensures Grounded(a) <= Grounded(current) + (|order| - depth)
  {
    var left := set k | depth <= k < |order| :: order[k];
    SetOfSuffix(order, depth, left);
    forall i | i in Bound(a) ensures i in Bound(current) + left {
      assert candidates[i] != [];
      assert i in order;
      var k :| 0 <= k < |order| && order[k] == i;
    }
    SubsetCardinality(Bound(a), Bound(current) + left);
  }

  lemma {:induction false} SetOfSuffix(order: seq<nat>, depth: nat, left: set<nat>)
    requires depth <= |order| && left == set k | depth <= k < |order| :: order[k]
    ensures |left| <= |order| - depth
    decreases |order| - depth
  {
    if depth == |order| {
      assert left == {};
    } else {
      var rest := set k | depth + 1 <= k < |order| :: order[k];
      SetOfSuffix(order, depth + 1, rest);
      assert left == rest + {order[depth]};
    }
  }

  lemma {:induction false} SubsetCardinality<T>(a: set<T>, b: set<T>)
    requires a <= b
    ensures |a| <= |b|
    decreases |a|
  {
    if a != {} {
      var x :| x in a;
      SubsetCardinality(a - {x}, b - {x});
    }
  }

  // ----- the greedy first descent -----

  /** Index of the first span from `from` on that is free, or the length. */
  function FirstFree(spans: seq<Span>, current: Assignment, i: nat, from: nat): (k: nat)
    requires from <= |spans|
    ensures from <= k <= |spans|
    decreases |spans| - from
  {
    if from == |spans| || Free(spans[from], current, i) then from
    else FirstFree(spans, current, i, from + 1)
  }

  /** Take the first free candidate of each phrase in order, never going back. */
  function Greedy(candidates: seq<seq<Span>>, order: seq<nat>, current: Assignment, depth: nat): (g: Assignment)
    requires depth <= |order| && |current| == |candidates|
    requires forall k | 0 <= k < |order| :: order[k] < |candidates|
    ensures |g| == |candidates|
    decreases |order| - depth
  {
    if depth == |order| then current
    else
      var i := order[depth];
      var k := FirstFree(candidates[i], current, i, 0);
      Greedy(candidates, order, if k < |candidates[i]| then current[i := Some(candidates[i][k])] else current, depth + 1)
  }

  // ----- the size of the search -----

  /** k times n, by repeated addition. */
  ghost function Copies(k: nat, n: nat): nat {
    if k == 0 then 0 else Copies(k - 1, n) + n
  }

  /** The nodes of the unpruned tree below a depth: one child for each candidate
      of the phrase and one for leaving it out. */
  ghost function Nodes(candidates: seq<seq<Span>>, order: seq<nat>, depth: nat): nat
    requires IsOrder(candidates, order) && depth <= |order|
    decreases |order| - depth
  {
    if depth == |order| then 1
    else 1 + Copies(|candidates[order[depth]]| + 1, Nodes(candidates, order, depth + 1))
  }

  /** A node of the tree is what was chosen on the way to it: for each phrase in turn one
      of its candidates or leaving it out. */
  ghost predicate IsNode(candidates: seq<seq<Span>>, order: seq<nat>, depth: nat, choices: seq<nat>)
    requires IsOrder(candidates, order) && depth <= |order|
  {
    && |choices| <= |order| - depth
    && forall k | 0 <= k < |choices| :: choices[k] <= |candidates[order[depth + k]]|
  }

  /** There are so many of them. */
  lemma {:induction false} NodesCount(candidates: seq<seq<Span>>, order: seq<nat>, depth: nat) returns (nodes: set<seq<nat>>)
    requires IsOrder(candidates, order) && depth <= |order|
    ensures forall choices :: choices in nodes <==> IsNode(candidates, order, depth, choices)
    ensures |nodes| == Nodes(candidates, order, depth)
    decreases |order| - depth
  {
    if depth == |order| {
      nodes := {[]};
    } else {
      var n := |candidates[order[depth]]| + 1;
      var below := NodesCount(candidates, order, depth + 1);
      var children := Prefixed(n, below);
      nodes := {[]} + children;
      forall choices
        ensures choices in nodes <==> IsNode(candidates, order, depth, choices)
      {
        if choices != [] {
          FirstChoice(candidates, order, depth, choices);
        }
      }
    }
  }

  lemma FirstChoice(candidates: seq<seq<Span>>, order: seq<nat>, depth: nat, choices: seq<nat>)
    requires IsOrder(candidates, order) && depth < |order| && choices != []
    ensures IsNode(candidates, order, depth, choices) <==>
            choices[0] <= |candidates[order[depth]]| && IsNode(candidates, order, depth + 1, choices[1..])
  {
    assert forall k :: 0 < k < |choices| ==> choices[k] == choices[1..][k - 1];
    if IsNode(candidates, order, depth + 1, choices[1..]) && choices[0] <= |candidates[order[depth]]| {
      forall k | 0 <= k < |choices|
        ensures choices[k] <= |candidates[order[depth + k]]|
      {
        if k > 0 {
          assert choices[1..][k - 1] <= |candidates[order[depth + 1 + (k - 1)]]|;
        }
      }
    }
    if IsNode(candidates, order, depth, choices) {
      forall k | 0 <= k < |choices[1..]|
        ensures choices[1..][k] <= |candidates[order[depth + 1 + k]]|
      {
        assert choices[k + 1] <= |candidates[order[depth + (k + 1)]]|;
      }
    }
  }

  lemma {:induction false} Prefixed(k: nat, below: set<seq<nat>>) returns (nodes: set<seq<nat>>)
    ensures forall choices :: choices in nodes <==> choices != [] && choices[0] < k && choices[1..] in below
    ensures |nodes| == Copies(k, |below|)
    decreases k
  {
    nodes := {};
    if k > 0 {
      var fewer := Prefixed(k - 1, below);
      var last := PrefixedBy(k - 1, below);
      assert fewer !! last;
      nodes := fewer + last;
    }
  }

  lemma {:induction false} PrefixedBy(first: nat, below: set<seq<nat>>) returns (nodes: set<seq<nat>>)
    ensures forall choices :: choices in nodes <==> choices != [] && choices[0] == first && choices[1..] in below
    ensures |nodes| == |below|
    decreases |below|
  {
    nodes := {};
    if below != {} {
      var one := SomeMember(below);
      var others := PrefixedBy(first, below - {one});
      assert ([first] + one)[1..] == one;
      assert [first] + one !in others;
      nodes := others + {[first] + one};
      forall choices
        ensures choices in nodes <==> choices != [] && choices[0] == first && choices[1..] in below
      {
        if choices != [] && choices[0] == first && choices[1..] == one {
          assert choices == [first] + one;
        }
      }
    }
  }

  lemma {:induction false} CopiesGrow(j: nat, k: nat, n: nat)
    requires j <= k
    ensures Copies(j, n) <= Copies(k, n)
    decreases k - j
  {
    if j < k {
      CopiesGrow(j, k - 1, n);
    }
  }

  // ----- branch and bound -----

  class PhraseSolver {
    const candidates: seq<seq<Span>>
    const order: seq<nat>
    const maxSteps: nat
    var current: Assignment
    var best: Assignment
    var bestCount: nat
    var steps: nat

    ghost predicate Valid()
      reads this
    {
      && IsOrder(candidates, order)
      && IsAssignment(candidates, current)
      && IsAssignment(candidates, best)
      && bestCount == Grounded(best)
    }

    constructor (candidates: seq<seq<Span>>, order: seq<nat>, maxSteps: nat)
      requires IsOrder(candidates, order)
      ensures this.candidates == candidates && this.order == order && this.maxSteps == maxSteps
      ensures Valid() && current == Unbound(|candidates|) && bestCount == 0 && steps == 0
    {
      this.candidates, this.order, this.maxSteps := candidates, order, maxSteps;
      current, best := Unbound(|candidates|), Unbound(|candidates|);
      bestCount, steps := 0, 0;
      new;
      assert Bound(best) == {};
    }

    method Overlaps(span: Span, exclude: nat) returns (hit: bool)
      ensures hit <==> !Free(span, current, exclude)
    {
      var idx := 0;
      while idx < |current|
        invariant 0 <= idx <= |current|
        invariant forall j | 0 <= j < idx && j != exclude && current[j].Some? :: !Overlap(span, current[j].value)
      {
        if current[idx].Some? && idx != exclude && Overlap(span, current[idx].value) {
          return true;
        }
        idx := idx + 1;
      }
      return false;
    }

    /** The undecided phrases are unbound and the count is of what is bound. */
    ghost predicate AtNode(depth: nat, grounded: nat)
      reads this
    {
      && Valid() && depth <= |order| && grounded == Grounded(current)
      && forall k | depth <= k < |order| :: current[order[k]] == None
    }

    /** Depth-first search below one node; `stop` ends the whole search. */
    method Search(depth: nat, grounded: nat) returns (stop: bool)
      requires AtNode(depth, grounded)
      modifies this
      ensures Valid()
      ensures old(steps) < steps && old(bestCount) <= bestCount
      ensures steps <= old(steps) + Nodes(candidates, order, depth)
      ensures stop ==> bestCount == |order| || steps > maxSteps
      ensures !stop ==> current == old(current)
      ensures !stop ==> forall a | IsAssignment(candidates, a) && Agrees(a, old(current), order, depth) ::
                  Grounded(a) <= bestCount
      ensures old(steps) + (|order| - depth) < maxSteps ==>
                Grounded(Greedy(candidates, order, old(current), depth)) <= bestCount
      decreases |order| - depth
    {
      steps := steps + 1;
      if steps > maxSteps {
        return true;
      }
      GreedyIsAssignment(candidates, order, current, depth);
      GreedyAgrees(candidates, order, current, depth);
      GroundedBound(candidates, order, Greedy(candidates, order, current, depth), current, depth);
      if grounded + (|order| - depth) <= bestCount {
        forall a | IsAssignment(candidates, a) && Agrees(a, current, order, depth)
          ensures Grounded(a) <= bestCount
        {
          GroundedBound(candidates, order, a, current, depth);
        }
        return false;
      }
      if depth == |order| {
        if grounded > bestCount {
          bestCount := grounded;
          best := current;
        }
        forall a | IsAssignment(candidates, a) && Agrees(a, current, order, depth)
          ensures Grounded(a) <= bestCount
        {
          GroundedBound(candidates, order, a, current, depth);
        }
        return bestCount == |order|;
      }
      stop := Branch(depth, grounded);
    }

    /** Each free candidate of the phrase at this depth in turn, then none. */
    method Branch(depth: nat, grounded: nat) returns (stop: bool)
      requires AtNode(depth, grounded) && depth < |order|
      modifies this
      ensures Valid()
      ensures old(steps) <= steps && old(bestCount) <= bestCount
      ensures steps <= old(steps) + Copies(|candidates[order[depth]]| + 1, Nodes(candidates, order, depth + 1))
      ensures stop ==> bestCount == |order| || steps > maxSteps
      ensures !stop ==> current == old(current)
      ensures !stop ==> forall a | IsAssignment(candidates, a) && Agrees(a, old(current), order, depth) ::
                  Grounded(a) <= bestCount
      ensures old(steps) + (|order| - depth) <= maxSteps ==>
                Grounded(Greedy(candidates, order, old(current), depth)) <= bestCount
      decreases |order| - depth, 2
    {
      ghost var start, n := current, |candidates[order[depth]]|;
      assert Copies(n + 1, Nodes(candidates, order, depth + 1))
          == Copies(n, Nodes(candidates, order, depth + 1)) + Nodes(candidates, order, depth + 1);
      GreedyUnfolds(start, depth);
      hide Greedy, GreedyFrom, FirstOf, IsAssignment, Agrees, Nodes, Copies, AllSettled, Settled;
      stop := TryCandidates(depth, grounded);
      if stop {
        return;
      }
      stop := Search(depth + 1, grounded);
      if !stop {
        AgreesStep(candidates, order, start, depth, None, bestCount);
        AllChoicesSettled(start, depth);
      }
    }

    /** The loop over the candidates; the greedy choice is the first free one. */
    method TryCandidates(depth: nat, grounded: nat) returns (stop: bool)
      requires AtNode(depth, grounded) && depth < |order|
      modifies this
      ensures Valid()
      ensures old(bestCount) <= bestCount
      ensures stop ==> bestCount == |order| || steps > maxSteps
      ensures !stop ==> current == old(current)
      ensures !stop ==> AllSettled(old(current), depth, |candidates[order[depth]]|, bestCount)
      ensures Tried(old(current), depth, old(steps), steps, bestCount)
      ensures FirstOf(old(current), depth) == |candidates[order[depth]]| ==> !stop
      decreases |order| - depth, 1
    {
      var spans := candidates[order[depth]];
      ghost var start := current;
      assert Progress(start, depth, 0, steps, steps, bestCount) && AllSettled(start, depth, 0, bestCount);
      hide IsAssignment, Settled, AllSettled, GreedyFrom, Free, FirstOf, Progress, Tried, Nodes;
      var next := 0;
      while next < |spans|
        invariant 0 <= next <= |spans|
        invariant AtNode(depth, grounded) && current == start && old(bestCount) <= bestCount
        invariant Progress(start, depth, next, old(steps), steps, bestCount)
        invariant AllSettled(start, depth, next, bestCount)
      {
        ghost var before, count := steps, bestCount;
        stop := TryCandidate(depth, grounded, spans[next]);
        ProgressStep(start, depth, next, old(steps), before, steps, count, bestCount);
        if stop {
          StopOutcome(start, depth, next, old(steps), steps, bestCount);
          return;
        }
        SettledStep(start, depth, next, count, bestCount);
        next := next + 1;
      }
      AllTried(start, depth, old(steps), steps, bestCount);
      return false;
    }

    /** The candidate a greedy pass takes here; the number of candidates if none is free. */
    ghost function FirstOf(start: Assignment, depth: nat): nat
      requires IsOrder(candidates, order) && depth < |order| && |start| == |candidates|
    {
      FirstFree(candidates[order[depth]], start, order[depth], 0)
    }

    lemma GreedyUnfolds(start: Assignment, depth: nat)
      requires IsOrder(candidates, order) && depth < |order| && |start| == |candidates|
      ensures
        var first := FirstOf(start, depth);
        Grounded(Greedy(candidates, order, start, depth))
        == if first == |candidates[order[depth]]| then Grounded(Greedy(candidates, order, start, depth + 1))
        else GreedyFrom(start, depth, candidates[order[depth]][first])
    {
    }

    /** After `next` candidates: at most that many subtrees were entered, none
        before the first free one, and that one was searched to the greedy leaf if
        the cap allows the descent. */
    ghost predicate Progress(start: Assignment, depth: nat, next: nat, before: nat, now: nat, count: nat)
      requires IsOrder(candidates, order) && depth < |order| && |start| == |candidates|
    {
      var first := FirstOf(start, depth);
      && before <= now <= before + Copies(next, Nodes(candidates, order, depth + 1))
      && (next <= first ==> now == before)
      && (first < next && first < |candidates[order[depth]]| && before + (|order| - depth) <= maxSteps ==>
            GreedyFrom(start, depth, candidates[order[depth]][first]) <= count)
    }

    /** The same once the loop is over, by exhaustion or by stopping. */
    ghost predicate Tried(start: Assignment, depth: nat, before: nat, now: nat, count: nat)
      requires IsOrder(candidates, order) && depth < |order| && |start| == |candidates|
    {
      var first := FirstOf(start, depth);
      && before <= now <= before + Copies(|candidates[order[depth]]|, Nodes(candidates, order, depth + 1))
      && if first == |candidates[order[depth]]| then now == before
         else
           before + (|order| - depth) <= maxSteps ==>
             GreedyFrom(start, depth, candidates[order[depth]][first]) <= count
    }

    lemma ProgressStep(start: Assignment, depth: nat, next: nat, before: nat, now: nat, later: nat, count: nat, more: nat)
      requires IsOrder(candidates, order) && depth < |order| && |start| == |candidates|
      requires next < |candidates[order[depth]]| && count <= more
      requires Progress(start, depth, next, before, now, count)
      requires now <= later <= now + Nodes(candidates, order, depth + 1)
      requires var span := candidates[order[depth]][next];
               if Free(span, start, order[depth])
               then now + (|order| - depth) <= maxSteps ==> GreedyFrom(start, depth, span) <= more
               else later == now
      ensures Progress(start, depth, next + 1, before, later, more)
      ensures FirstOf(start, depth) == |candidates[order[depth]]| ==> !Free(candidates[order[depth]][next], start, order[depth])
    {
      hide GreedyFrom, Nodes;
      FirstFreeIsFree(candidates[order[depth]], start, order[depth], 0);
    }

    lemma StopOutcome(start: Assignment, depth: nat, next: nat, before: nat, now: nat, count: nat)
      requires IsOrder(candidates, order) && depth < |order| && |start| == |candidates|
      requires next < |candidates[order[depth]]| && Free(candidates[order[depth]][next], start, order[depth])
      requires Progress(start, depth, next + 1, before, now, count)
      ensures Tried(start, depth, before, now, count)
    {
      hide GreedyFrom, Nodes;
      FirstFreeIsFree(candidates[order[depth]], start, order[depth], 0);
      CopiesGrow(next + 1, |candidates[order[depth]]|, Nodes(candidates, order, depth + 1));
    }

    lemma AllTried(start: Assignment, depth: nat, before: nat, now: nat, count: nat)
      requires IsOrder(candidates, order) && depth < |order| && |start| == |candidates|
      requires Progress(start, depth, |candidates[order[depth]]|, before, now, count)
      ensures Tried(start, depth, before, now, count)
    {
      hide GreedyFrom, Nodes;
    }

    ghost function GreedyFrom(start: Assignment, depth: nat, span: Span): nat
      requires IsOrder(candidates, order) && depth < |order| && |start| == |candidates|
    {
      Grounded(Greedy(candidates, order, start[order[depth] := Some(span)], depth + 1))
    }

    /** No assignment agreeing so far and making this choice next beats the bound. */
    ghost predicate Settled(start: Assignment, depth: nat, choice: Option<Span>, bound: nat)
      requires IsOrder(candidates, order) && depth < |order| && |start| == |candidates|
    {
      forall a: Assignment | IsAssignment(candidates, a) && Agrees(a, start, order, depth) && a[order[depth]] == choice ::
        Grounded(a) <= bound
    }

    ghost predicate AllSettled(start: Assignment, depth: nat, n: nat, bound: nat)
      requires IsOrder(candidates, order) && depth < |order| && |start| == |candidates|
      requires n <= |candidates[order[depth]]|
    {
      forall k | 0 <= k < n :: Settled(start, depth, Some(candidates[order[depth]][k]), bound)
    }

    lemma SettledStep(start: Assignment, depth: nat, n: nat, before: nat, after: nat)
      requires IsOrder(candidates, order) && depth < |order| && |start| == |candidates|
      requires n < |candidates[order[depth]]| && before <= after
      requires AllSettled(start, depth, n, before)
      requires Settled(start, depth, Some(candidates[order[depth]][n]), after)
      ensures AllSettled(start, depth, n + 1, after)
    {
      forall k | 0 <= k < n + 1 ensures Settled(start, depth, Some(candidates[order[depth]][k]), after) {
        if k < n {
          assert Settled(start, depth, Some(candidates[order[depth]][k]), before);
        }
      }
    }

    lemma AllChoicesSettled(start: Assignment, depth: nat)
      requires IsOrder(candidates, order) && depth < |order| && |start| == |candidates|
      requires AllSettled(start, depth, |candidates[order[depth]]|, bestCount)
      requires Settled(start, depth, None, bestCount)
      ensures forall a | IsAssignment(candidates, a) && Agrees(a, start, order, depth) :: Grounded(a) <= bestCount
    {
      forall a: Assignment | IsAssignment(candidates, a) && Agrees(a, start, order, depth)
        ensures Grounded(a) <= bestCount
      {
        var i := order[depth];
        if a[i].Some? {
          var k :| 0 <= k < |candidates[i]| && candidates[i][k] == a[i].value;
          assert Settled(start, depth, Some(candidates[i][k]), bestCount);
        }
      }
    }

    /** One pass of the loop over a phrase's candidates. */
    method TryCandidate(depth: nat, grounded: nat, span: Span) returns (stop: bool)
      requires AtNode(depth, grounded) && depth < |order| && span in candidates[order[depth]]
      modifies this
      ensures Valid()
      ensures old(steps) <= steps && old(bestCount) <= bestCount
      ensures steps <= old(steps) + Nodes(candidates, order, depth + 1)
      ensures stop ==> bestCount == |order| || steps > maxSteps
      ensures !stop ==> current == old(current)
      ensures !stop ==> Settled(old(current), depth, Some(span), bestCount)
      ensures !Free(span, old(current), order[depth]) ==> !stop && steps == old(steps)
      ensures Free(span, old(current), order[depth]) && old(steps) + (|order| - depth) <= maxSteps ==>
                GreedyFrom(old(current), depth, span) <= bestCount
      decreases |order| - depth, 0
    {
      hide Nodes, Greedy, MatchesAt, Bound;
      var i := order[depth];
      ghost var start := current;
      var blocked := Overlaps(span, i);
      if blocked {
        BlockedSpan(candidates, order, start, depth, span);
        return false;
      }
      GroundedUpdate(start, i, span);
      current := current[i := Some(span)];
      stop := Search(depth + 1, grounded + 1);
      if !stop {
        current := current[i := None];
        assert current == start;
        AgreesStep(candidates, order, start, depth, Some(span), bestCount);
      }
    }
  }

  lemma BindOneMore(candidates: seq<seq<Span>>, current: Assignment, i: nat, span: Span)
    requires IsAssignment(candidates, current) && i < |current| && span in candidates[i] && Free(span, current, i)
    ensures IsAssignment(candidates, current[i := Some(span)])
  {
    hide Overlap;
    OverlapSymmetric(span);
  }

  lemma OverlapSymmetric(span: Span)
    ensures forall other :: Overlap(other, span) == Overlap(span, other)
  {
  }

  lemma {:induction false} GreedyIsAssignment(candidates: seq<seq<Span>>, order: seq<nat>, current: Assignment, depth: nat)
    requires IsOrder(candidates, order) && depth <= |order| && IsAssignment(candidates, current)
    requires forall k | depth <= k < |order| :: current[order[k]] == None
    ensures IsAssignment(candidates, Greedy(candidates, order, current, depth))
    decreases |order| - depth
  {
    if depth < |order| {
      var i := order[depth];
      var k := FirstFree(candidates[i], current, i, 0);
      FirstFreeIsFree(candidates[i], current, i, 0);
      if k < |candidates[i]| {
        BindOneMore(candidates, current, i, candidates[i][k]);
      }
      var next := if k < |candidates[i]| then current[i := Some(candidates[i][k])] else current;
      hide IsAssignment, Free, FirstFree;
      GreedyIsAssignment(candidates, order, next, depth + 1);
    }
  }

  lemma {:induction false} GreedyAgrees(candidates: seq<seq<Span>>, order: seq<nat>, current: Assignment, depth: nat)
    requires IsOrder(candidates, order) && depth <= |order| && IsAssignment(candidates, current)
    requires forall k | depth <= k < |order| :: current[order[k]] == None
    ensures Agrees(Greedy(candidates, order, current, depth), current, order, depth)
    decreases |order| - depth
  {
    if depth < |order| {
      var i := order[depth];
      var k := FirstFree(candidates[i], current, i, 0);
      FirstFreeIsFree(candidates[i], current, i, 0);
      if k < |candidates[i]| {
        BindOneMore(candidates, current, i, candidates[i][k]);
      }
      var next := if k < |candidates[i]| then current[i := Some(candidates[i][k])] else current;
      hide IsAssignment, Free, FirstFree;
      GreedyAgrees(candidates, order, next, depth + 1);
    }
  }

  lemma {:induction false} FirstFreeIsFree(spans: seq<Span>, current: Assignment, i: nat, from: nat)
    requires from <= |spans|
    ensures var k := FirstFree(spans, current, i, from); k < |spans| ==> Free(spans[k], current, i)
    ensures forall k | from <= k < FirstFree(spans, current, i, from) :: !Free(spans[k], current, i)
    decreases |spans| - from
  {
    if from < |spans| && !Free(spans[from], current, i) {
      FirstFreeIsFree(spans, current, i, from + 1);
    }
  }

  /** A candidate overlapping an earlier choice is in no agreeing assignment. */
  lemma BlockedSpan(candidates: seq<seq<Span>>, order: seq<nat>, current: Assignment, depth: nat, span: Span)
    requires IsOrder(candidates, order) && depth < |order| && IsAssignment(candidates, current)
    requires forall k | depth <= k < |order| :: current[order[k]] == None
    requires !Free(span, current, order[depth])
    ensures forall a | IsAssignment(candidates, a) && Agrees(a, current, order, depth) :: a[order[depth]] != Some(span)
  {
  }

  /** Assignments agreeing one phrase deeper are those making this choice. */
  lemma AgreesStep(candidates: seq<seq<Span>>, order: seq<nat>, current: Assignment, depth: nat, choice: Option<Span>, bound: nat)
    requires IsOrder(candidates, order) && depth < |order| && |current| == |candidates|
    requires forall a | IsAssignment(candidates, a) && Agrees(a, current[order[depth] := choice], order, depth + 1) ::
               Grounded(a) <= bound
    ensures forall a | IsAssignment(candidates, a) && Agrees(a, current, order, depth) && a[order[depth]] == choice ::
              Grounded(a) <= bound
  {
  }

  // ----- the solver's entry point -----

  const PHRASE_SOLVER_MAX_STEPS := 200000

  function AllCandidates(phrases: seq<Phrase>, tokens: seq<SourceToken>): (r: seq<seq<Span>>)
    ensures |r| == |phrases| && forall i | 0 <= i < |phrases| :: r[i] == CandidateSpans(phrases[i], tokens)
  {
    seq(|phrases|, i requires 0 <= i < |phrases| => CandidateSpans(phrases[i], tokens))
  }

  function ActiveIndices(phrases: seq<Phrase>): (r: seq<nat>)
    ensures forall i | 0 <= i < |phrases| :: i in r <==> phrases[i] != []
    ensures forall k | 0 <= k < |r| :: r[k] < |phrases|
    ensures forall j, k | 0 <= j < k < |r| :: r[j] < r[k]
  {
    if phrases == [] then []
    else
      var last := |phrases| - 1;
      ActiveIndices(phrases[..last]) + (if phrases[last] != [] then [last] else [])
  }

  /** Fewest candidates first, then longest phrase, then position. */
  predicate KeyBefore(phrases: seq<Phrase>, candidates: seq<seq<Span>>, i: nat, j: nat)
    requires i < |phrases| == |candidates| && j < |phrases|
  {
    || |candidates[i]| < |candidates[j]|
    || (|candidates[i]| == |candidates[j]|
        && (|phrases[i]| > |phrases[j]| || (|phrases[i]| == |phrases[j]| && i <= j)))
  }

  predicate InRange(order: seq<nat>, n: nat) {
    forall k | 0 <= k < |order| :: order[k] < n
  }

  function Insert(phrases: seq<Phrase>, candidates: seq<seq<Span>>, x: nat, order: seq<nat>): (r: seq<nat>)
    requires x < |phrases| == |candidates| && InRange(order, |phrases|)
    ensures InRange(r, |phrases|) && multiset(r) == multiset(order) + multiset{x}
  {
    if order == [] then [x]
    else if KeyBefore(phrases, candidates, x, order[0]) then [x] + order
    else
      assert order == [order[0]] + order[1..];
      [order[0]] + Insert(phrases, candidates, x, order[1..])
  }

  function SortByKey(phrases: seq<Phrase>, candidates: seq<seq<Span>>, order: seq<nat>): (r: seq<nat>)
    requires |phrases| == |candidates| && InRange(order, |phrases|)
    ensures InRange(r, |phrases|) && multiset(r) == multiset(order)
  {
    if order == [] then []
    else
      assert order == [order[0]] + order[1..];
      Insert(phrases, candidates, order[0], SortByKey(phrases, candidates, order[1..]))
  }

  ghost predicate SortedByKey(phrases: seq<Phrase>, candidates: seq<seq<Span>>, order: seq<nat>)
    requires |phrases| == |candidates| && InRange(order, |phrases|)
  {
    forall j, k | 0 <= j < k < |order| :: KeyBefore(phrases, candidates, order[j], order[k])
  }

  lemma {:induction false} InsertKeepsSorted(phrases: seq<Phrase>, candidates: seq<seq<Span>>, x: nat, order: seq<nat>)
    requires x < |phrases| == |candidates| && InRange(order, |phrases|) && SortedByKey(phrases, candidates, order)
    ensures SortedByKey(phrases, candidates, Insert(phrases, candidates, x, order))
    decreases |order|
  {
    if order != [] && !KeyBefore(phrases, candidates, x, order[0]) {
      var rest := Insert(phrases, candidates, x, order[1..]);
      InsertKeepsSorted(phrases, candidates, x, order[1..]);
      forall k | 0 <= k < |rest| ensures KeyBefore(phrases, candidates, order[0], rest[k]) {
        assert rest[k] in multiset(rest);
        if rest[k] != x {
          var m :| 0 <= m < |order[1..]| && order[1..][m] == rest[k];
          assert order[m + 1] == rest[k];
        }
      }
    }
  }

  lemma {:induction false} SortSorts(phrases: seq<Phrase>, candidates: seq<seq<Span>>, order: seq<nat>)
    requires |phrases| == |candidates| && InRange(order, |phrases|)
    ensures SortedByKey(phrases, candidates, SortByKey(phrases, candidates, order))
    decreases |order|
  {
    if order != [] {
      SortSorts(phrases, candidates, order[1..]);
      InsertKeepsSorted(phrases, candidates, order[0], SortByKey(phrases, candidates, order[1..]));
    }
  }

  lemma {:induction false} NoDuplicatesByCount(s: seq<nat>)
    ensures (forall j, k | 0 <= j < k < |s| :: s[j] != s[k]) <==> (forall x | x in s :: multiset(s)[x] == 1)
    decreases |s|
  {
    if s != [] {
      var x, rest := s[0], s[1..];
      assert s == [x] + rest;
      NoDuplicatesByCount(rest);
      if forall j, k | 0 <= j < k < |s| :: s[j] != s[k] {
        forall y | y in s ensures multiset(s)[y] == 1 {
          if y in rest {
            assert multiset(rest)[y] == 1;
            assert x != y;
          }
        }
      }
      if forall y | y in s :: multiset(s)[y] == 1 {
        assert multiset(s)[x] == 1 + multiset(rest)[x];
        assert x !in rest;
        forall y | y in rest ensures multiset(rest)[y] == 1 {
          assert multiset(s)[y] == 1;
        }
        forall j, k | 0 <= j < k < |s| ensures s[j] != s[k] {
          assert s[k] == rest[k - 1];
          if j > 0 {
            assert s[j] == rest[j - 1];
          }
        }
      }
    }
  }

  function VisitOrder(phrases: seq<Phrase>, tokens: seq<SourceToken>): seq<nat> {
    SortByKey(phrases, AllCandidates(phrases, tokens), ActiveIndices(phrases))
  }

  lemma VisitOrderIsOrder(phrases: seq<Phrase>, tokens: seq<SourceToken>)
    ensures IsOrder(AllCandidates(phrases, tokens), VisitOrder(phrases, tokens))
    ensures SortedByKey(phrases, AllCandidates(phrases, tokens), VisitOrder(phrases, tokens))
    ensures
      var order, candidates := VisitOrder(phrases, tokens), AllCandidates(phrases, tokens);
      forall j, k | 0 <= j < k < |order| ::
        && order[j] < |phrases| && order[k] < |phrases|
        && |candidates[order[j]]| <= |candidates[order[k]]|
        && (|candidates[order[j]]| == |candidates[order[k]]| ==> |phrases[order[j]]| >= |phrases[order[k]]|)
        && (|candidates[order[j]]| == |candidates[order[k]]| && |phrases[order[j]]| == |phrases[order[k]]| ==>
              order[j] < order[k])
    ensures forall i | 0 <= i < |phrases| :: i in VisitOrder(phrases, tokens) <==> phrases[i] != []
  {
    var active, order := ActiveIndices(phrases), VisitOrder(phrases, tokens);
    SortSorts(phrases, AllCandidates(phrases, tokens), active);
    assert multiset(order) == multiset(active);
    NoDuplicatesByCount(active);
    NoDuplicatesByCount(order);
    forall x: nat ensures x in order <==> x in active {
      assert x in order <==> x in multiset(order);
      assert x in active <==> x in multiset(active);
    }
  }

  /** The assignment a single greedy pass in the solver's own order would make. */
  ghost function GreedyAssignment(phrases: seq<Phrase>, tokens: seq<SourceToken>): Assignment {
    VisitOrderIsOrder(phrases, tokens);
    Greedy(AllCandidates(phrases, tokens), VisitOrder(phrases, tokens), Unbound(|phrases|), 0)
  }

  ghost function SearchSpace(phrases: seq<Phrase>, tokens: seq<SourceToken>): nat {
    VisitOrderIsOrder(phrases, tokens);
    Nodes(AllCandidates(phrases, tokens), VisitOrder(phrases, tokens), 0)
  }

  /** Always disjoint exact matches; as many as any disjoint assignment has unless
      the step cap fired, which it does not while the whole search tree fits it;
      and never fewer than the greedy pass once the cap allows one descent. */
  method ResolvePhraseAssignments(phrases: seq<Phrase>, tokens: seq<SourceToken>, maxSteps: nat)
    returns (result: Assignment, ghost capped: bool)
    ensures IsAssignment(AllCandidates(phrases, tokens), result)
    ensures !capped ==> forall a | IsAssignment(AllCandidates(phrases, tokens), a) :: Grounded(a) <= Grounded(result)
    ensures SearchSpace(phrases, tokens) <= maxSteps ==> !capped
    ensures |ActiveIndices(phrases)| < maxSteps ==> Grounded(GreedyAssignment(phrases, tokens)) <= Grounded(result)
  {
    var candidates := [];
    var i := 0;
    while i < |phrases|
      invariant 0 <= i <= |phrases| && |candidates| == i
      invariant forall k | 0 <= k < i :: candidates[k] == CandidateSpans(phrases[k], tokens)
    {
      var spans := PhraseCandidateSpans(phrases[i], tokens);
      candidates := candidates + [spans];
      i := i + 1;
    }
    assert candidates == AllCandidates(phrases, tokens);
    var order := SortByKey(phrases, candidates, ActiveIndices(phrases));
    VisitOrderIsOrder(phrases, tokens);
    SameLength(order, ActiveIndices(phrases));
    var solver := new PhraseSolver(candidates, order, maxSteps);
    ghost var start := solver.current;
    assert Bound(start) == {};
    var stop := solver.Search(0, 0);
    result := solver.best;
    capped := solver.steps > maxSteps;
    if !capped {
      forall a | IsAssignment(candidates, a) ensures Grounded(a) <= Grounded(result) {
        GroundedBound(candidates, order, a, start, 0);
      }
    }
  }

  lemma SameLength(s: seq<nat>, t: seq<nat>)
    requires multiset(s) == multiset(t)
    ensures |s| == |t|
  {
    assert |multiset(s)| == |s| && |multiset(t)| == |t|;
  }
}
