# Verification of the animation backend's decision cores

This project models the parts of the backend that have to be right for reasons a
reader cannot see in one function: a printer that drops parentheses, a search that
prunes, requests that race, transactions that must keep a library consistent, caches
that share files, and bookkeeping that is sparser than what it stands for. Each
module is named after the component it follows.

Arithmetic on the original's `Fraction` values is done over reals and reduced
integer pairs, so it is exact here as it is there. Where the original updates state
step by step, the model is a class or a method with loops, proved against a
specification function; the properties are then lemmas about that function, over all
inputs, all runs or all reachable states. Where a promised property does not hold of
the code, the code is kept, a lemma builds a run or input that shows it, and another
gives exactly the condition under which it does hold.

- `Arithmetic`, `DecimalFormat`, `Expression`, `ExpressionDisplay`,
  `DisplayParentheses`: answer expressions, their compilation and evaluation, exact
  number text, and the one-line display. The display is read back by an independent
  three-tier, left-associative calculator (`+ -`, then `× ÷`, then `/`); the last
  module says which parentheses a line has, in terms of what that calculator makes of
  the line without them.
- `PhraseGrounding`, `ParamsGrounding`, `ExcerptGrounding`: whether numbers, phrases
  and excerpts occur in the slide text. Tokens are canonical keys; regular expressions
  and text normalisation are taken as done.
- `StoryboardOrder`, `Storyboard`, `StoryboardRetry`, `StoryboardSession`: one
  session's scenes under concurrent requests. A run is any interleaving of reads,
  commits, retries, renders, publications and evictions. A request acts only on a
  copy it read earlier; names are minted fresh.
- `TemplateLibrary`, `TemplatePublication`: approval, promotion, withdrawal and the
  snapshot a session resolves template names in, with the unique indexes as a reason to
  abort; and what was checked before any version appeared.
- `GenerationJobs`, `GenerationSteps`: the job queue, its leases, backoff and
  requeueing, for any number of workers acting in any order; and what each step does,
  told by the rows.
- `SessionStore`, `FreshEntries`, `SessionRuns`: clip and thumbnail registries, reservations, the four
  eviction policies and the files they unlink, and the session index; and whole runs, in
  which outside the lock, file by file, a sweep deletes what an earlier snapshot did not
  track and a dropped session's directory is removed.
- `BeatRoles`, `BeatFrames`, `BeatReveals`, `BeatScreen`: the beat expander's role map and reveal
  bookkeeping, against what the renderer shows when it replays the emitted actions:
  target by target in `BeatRoles`, and in `BeatFrames` piece by piece, where parts may
  overlap. The deferred parts of a visual are an arbitrary set. `BeatScreen` says what
  is on screen after each beat.
- `FractionBridge`: the compile-time gate of the common-denominator lesson.
- `GuardWitness`, `GuardMeaning`: guard predicates, the search for rejecting fixtures
  and the coverage gate; and what each predicate says of its own expressions.
- `Outcomes`, `Collections`, `Ownership`: what several of these share.

## Results that correct an expectation

- A fraction whose denominator is an atom that itself prints as a ratio is displayed
  without parentheses (`2/1/3`). `LineIsRegrouped` says what the line of any tree is
  worth: the value of the tree with every such fraction n over p/d regrouped as
  (n / p) / d. `RatioOverAtomIff` is the exact condition for one such fraction and
  `RatioOverRatioExample` a failing line.
- The line has the parentheses it needs and one kind that it does not: around a product
  that is the numerator of a fraction, as in `(2 × 3)/4`, they never change the value.
  `OnlyNeededParentheses` and `WrappedIff` say that all others do for some numbers,
  `ProductNumerator` that these do for none.
- Retrying a scene stores revision 0 outside the compare-and-swap.
  `StaleApprovalAfterRetry` is a run that ends with a scene ready to render with a
  mismatch nobody acknowledged, `StaleRenderAfterRetry` one that hands out a clip of
  the old params. The storyboard's theorems hold of the runs whose retries store the
  content that is already there; `RetryHarmlessIff` says that no weaker guard will do:
  any other retry breaks one of the guarantees, at once or a few steps later.
- A job's attempt count can pass the configured maximum: `AttemptsCanExceedMaximum`
  builds such a run, without any worker misbehaving, for every configuration that
  allows a second refinement. `RequeueHarmlessIff` and `RunBounded` give the condition.
- Restoring does not always undo a dim. Dimming a part that only follows its whole
  visual remembers the visual's initial role, and a role remembered by an earlier dim is
  never replaced. `RestoreUndoesDimIff`, `RestoreUndoesWholeDimIff` and, piece by piece,
  `RestoredFrameIff` say exactly when restoring brings the frame back, after any run;
  `RestoreForgetsEmphasis`, `RestoreSkipsLaterEmphasis` and `EmphasisedPartSurprises` are
  runs in which it does not.
- The lookup of a role misreads deferred parts, and a change of a whole visual may be
  swallowed while its parts differ. `LookupRightIff` and `WholeChangeUniformIff` are
  exact; `DeferredPartMisread` and `EmphasisedPartSurprises` are the runs.
- The role map knows nothing of parts that share pieces, or of pieces drawn in another
  role than their visual declares. `DescribesFrameIff` says that it describes the frame
  after every run exactly when there are none; `EmittedInvisibly` is a run that plays a
  recolouring nobody can see.
- A sweep at runtime, and the removal of a dropped session's directory, can disturb an
  in-flight render. `SweepTakesIff` says that a sweep takes exactly the files whose path
  became tracked after its snapshot; by `LosesFileIff` and `LiveFileStaysIff` the three
  ways to lose a file that is still named are a sweep, an abort and such a removal.
  `SweepDisturbsRender`, `EntryLosesFile` and `DroppedSessionLosesRender` are the runs.

- The gate of the common-denominator lesson can fail by dividing by zero instead of
  refusing the plan. `ZeroDivisionIff` says exactly when.
- A clip can lose its entry to its own registration although it fits its session's
  bytes: of entries with one timestamp the clips are evicted before the thumbnails.
  `FreshSurvivesIff` is the exact condition.

## Model

| member | source | states |
|---|---|---|
| DecimalFormat.FormatNumber | backend/app/meta/v3/expression_display.py:37-73 | the division loops and string slicing compute the text that the following rows characterise |
| DecimalFormat.RatioIffNonTerminating | backend/app/meta/v3/expression_display.py:53-62 | a ratio is printed exactly when no power of ten is a multiple of the reduced denominator |
| DecimalFormat.FewestDigits | backend/app/meta/v3/expression_display.py:64-70 | no decimal equal to the value has fewer digits after the point than the one printed |
| DecimalFormat.TrimIsIdle | backend/app/meta/v3/expression_display.py:70-72 | stripping trailing zeros never removes a digit |
| DecimalFormat.FormatRoundTrip | backend/app/meta/v3/expression_display.py:37-73 | for every rational, reading the printed text gives back exactly that rational |
| Expression.CompileExpression | backend/app/meta/dsl/expression.py:143-171 | compilation succeeds exactly on trees within the depth and operation limits whose leaves are finite or declared fields, and returns the fields read |
| Expression.Walker.Walk | backend/app/meta/dsl/expression.py:148-168 | the running counters of the walk equal the tree's operation count and field set, and it fails exactly when the tree is not acceptable at that depth |
| Expression.FirstErrorReported | backend/app/meta/dsl/expression.py:214-234 | operands are evaluated left to right: the error reported is that of the first operand that has one, and without one every value keeps its place |
| Expression.FieldReads | backend/app/meta/dsl/expression.py:188-211 | a reference reads the member of the entry it names, and evaluates exactly when that is a finite number within the limit |
| Expression.LegalReferenceIff | backend/app/meta/dsl/expression.py:112-140 | a reference is accepted exactly when it names a scalar without a member or a declared member of an entry |
| Expression.AcceptedFailures | backend/app/meta/dsl/expression.py:112-140 | an expression accepted against a field contract, run on any numeric record of that shape, can fail only by division by zero, overflow or an index out of range |
| Expression.SuccessWithinLimit | backend/app/meta/dsl/expression.py:208-234 | when evaluation succeeds every subexpression's value is within the magnitude limit |
| ExpressionDisplay.TokenizeDisplay | backend/app/meta/v3/expression_display.py:80-97 | the displayed line splits into exactly the tokens of the tree, negative and decimal atoms included |
| ExpressionDisplay.ReadOperand | backend/app/meta/v3/expression_display.py:100-109 | an operand printed with or without its parentheses reads back to its value in the position where it stands |
| ExpressionDisplay.DisplayPreservesValue | backend/app/meta/v3/expression_display.py:76-109 | for every tree with no ratio-printing atom under a fraction's denominator, calculating the displayed line gives the tree's exact value, n-ary operators and dropped parentheses included |
| DisplayParentheses.TwoOperationsRead | backend/app/meta/v3/expression_display.py:100-109 | the calculator is an ordinary one: of two operations on numbers without parentheses the tighter comes first, otherwise the left one |
| DisplayParentheses.WrappedIff | backend/app/meta/v3/expression_display.py:100-109 | for every parent operator, operand count and position and every child operation, the operand is wrapped exactly when some numbers make the line without the parentheses worth something else than the expression, or it is a product as a numerator |
| DisplayParentheses.ProductNumerator | backend/app/meta/v3/expression_display.py:100-109 | around a product that is the numerator of a fraction the parentheses never matter |
| DisplayParentheses.OnlyNeededParentheses | backend/app/meta/v3/expression_display.py:76-109 | the line of any operation joins its operands' own lines, with parentheses around just those operations whose value would change without them for some numbers, and around a product as a numerator |
| ExpressionDisplay.EvaluateIsExact | backend/app/meta/dsl/expression.py:214-234 | where the capped evaluator answers it answers with the exact value, and where it fails by dividing by zero the value is undefined |
| ExpressionDisplay.DisplayAgreesWithEvaluate | backend/app/meta/v3/expression_display.py:76-109 | the displayed line is worth what the evaluator returns |
| ExpressionDisplay.LineIsRegrouped | backend/app/meta/v3/expression_display.py:76-109 | for every tree, calculating the displayed line gives the exact value of the tree with each fraction over a ratio-printing atom, at any depth, regrouped as two quotients |
| ExpressionDisplay.RatioOverAtomIff | backend/app/meta/v3/expression_display.py:81-88 | a fraction over an atom is displayed faithfully exactly when the atom is not printed as a ratio, or the numerator is zero or undefined |
| ExpressionDisplay.RatioOverRatioExample | backend/app/meta/v3/expression_display.py:81-88 | two over one third prints as 2/1/3, which is not worth six |
| PhraseGrounding.CandidatesAreMatches | backend/app/pipeline/grounding.py:155-174 | the candidate spans of a phrase are exactly the spans of its consecutive-token matches |
| PhraseGrounding.CandidatesInOrder | backend/app/pipeline/grounding.py:155-174 | they are listed by the matching positions from left to right, each once |
| PhraseGrounding.PhraseCandidateSpans | backend/app/pipeline/grounding.py:155-174 | the scan over start positions returns those candidates in source order |
| PhraseGrounding.VisitOrderIsOrder | backend/app/pipeline/grounding.py:216-229 | the phrases are visited once each, fewest candidates first, and exactly the nonempty ones |
| PhraseGrounding.NodesCount | backend/app/pipeline/grounding.py:244-268 | the size that the step cap is compared with is the number of nodes of the search tree: the ways to choose, for the first phrases in turn, a candidate or none |
| PhraseGrounding.PhraseSolver.Search | backend/app/pipeline/grounding.py:244-268 | one node of the search: on return nothing agreeing with the choices so far beats the best count unless the whole search stops, within the node count of its subtree |
| PhraseGrounding.PhraseSolver.TryCandidate | backend/app/pipeline/grounding.py:244-268 | trying one span undoes its choice and settles every assignment that makes it |
| PhraseGrounding.ResolvePhraseAssignments | backend/app/pipeline/grounding.py:189-271 | the result is always a disjoint assignment of exact matches; it grounds as many phrases as any such assignment unless the step cap fired, which it does not while the search tree fits it; and never fewer than the greedy descent |
| ParamsGrounding.BuildSourceOccurrences | backend/app/pipeline/grounding.py:131-138 | the occurrence lists hold, for exactly the keys of the source, all spans of that key in source order |
| ParamsGrounding.SpansOfPicks | backend/app/pipeline/grounding.py:131-138 | the spans listed for a key are those of exactly its positions in the source, left to right |
| ParamsGrounding.Consume | backend/app/pipeline/grounding.py:299-307 | popping one occurrence per number leaves exactly the tokens whose key was already used up |
| ParamsGrounding.UnmatchedCount | backend/app/pipeline/grounding.py:299-307 | per key, as many tokens stay unmatched as the parameters have more of it than the source |
| ParamsGrounding.KeysOfCounts | backend/app/pipeline/grounding.py:299-307 | a key is counted as often as it stands among the tokens |
| ParamsGrounding.ConsumeAll | backend/app/pipeline/grounding.py:274-281 | consuming all components succeeds exactly when their keys fit the source's supply together |
| ParamsGrounding.AllowedTotals | backend/app/pipeline/grounding.py:338-356 | a total is allowed exactly when some declared derivation vouches for it |
| ParamsGrounding.TotalsConcat | backend/app/pipeline/grounding.py:346-353 | sums and products are those of the values, however the components are cut up |
| ParamsGrounding.CloseIff | backend/app/pipeline/grounding.py:338-356 | a total is close when it is within the relative tolerance of either value or within the absolute one |
| ParamsGrounding.CheckParamsGrounded | backend/app/pipeline/grounding.py:284-362 | the report lists, in order and by position, exactly the numbers of whose key as many stand before them as the source has and that nothing vouches for, then exactly the given texts with tokens that a disjoint binding of all the texts leaves out, one as large as any unless the cap fired; it is empty only if every number is grounded and some disjoint binding binds every text with tokens, and without the cap exactly then |
| ExcerptGrounding.RectangleIs | backend/app/pipeline/discovery.py:68-79 | concatenating with the overflow cut-off answers exactly whether the rectangle reads as the suffix |
| ExcerptGrounding.SnapRectangle | backend/app/pipeline/discovery.py:59-67 | any integer rectangle with text can be snapped to listed rows and columns without changing what it reads |
| ExcerptGrounding.SuffixFromTableRectangle | backend/app/pipeline/discovery.py:41-80 | true exactly when the suffix is nonempty and equals the row-by-row text of some rectangle of the table |
| ExcerptGrounding.ContiguousInAnyBlock | backend/app/pipeline/discovery.py:83-91 | true exactly when the prefix is empty or a run of one block |
| ExcerptGrounding.InTextShrinks | backend/app/pipeline/discovery.py:129-132 | a shorter prefix is found wherever a longer one is, so stopping at the first miss loses nothing |
| ExcerptGrounding.FileBlocks | backend/app/pipeline/discovery.py:98-104 | the text lists and the per-table cell lists are exactly those of the blocks |
| ExcerptGrounding.BuildTables | backend/app/pipeline/discovery.py:106-119 | only tables whose every cell has coordinates are offered for rectangles, all cells for containment |
| ExcerptGrounding.IsExcerptGrounded | backend/app/pipeline/discovery.py:94-140 | true exactly when the excerpt is nonempty and lies in one cell, or some split has its prefix in one text block and its suffix is empty or is spelled out by one rectangle of one fully placed table, told by the rows and columns of the blocks themselves: the last cell at each coordinate, row by row |
| ExcerptGrounding.GridShows | backend/app/pipeline/discovery.py:114-119 | the grid of a table holds at a coordinate the tokens of the last cell with that row and column, and nothing where there is none |
| ExcerptGrounding.GridReadsIff | backend/app/pipeline/discovery.py:59-80 | some rectangle of the grid reads as a text exactly when the shown cells of some rectangle, in reading order, spell it out |
| StoryboardOrder.ChainOrder | backend/app/routes.py:933-937 | sorting, removing and inserting yields the order with the chosen ids replaced by the chain where the first of them stood |
| StoryboardOrder.ScreenOrderIsSorted | backend/app/routes.py:933-939 | the chain's members are the chosen ids, each once, sorted by their position on screen |
| StoryboardOrder.UngroupOrder | backend/app/routes.py:959-962 | inserting the members one by one splices them in where the chain stood |
| StoryboardOrder.ChainGathers | backend/app/routes.py:933-939 | with chains expanded, combining only gathers the chosen scenes to where the first stood |
| StoryboardOrder.GatherIsStable | backend/app/routes.py:933-939 | gathering is a permutation that keeps the relative order of the chosen and of the others |
| StoryboardOrder.ChainThenUngroup | backend/app/routes.py:933-962 | combining and taking apart again equals the stable gather of the original order |
| StoryboardOrder.ChainKeepsOrder | backend/app/routes.py:933-939 | combining keeps the order well formed: no scene twice, chains on the order, members no chains |
| StoryboardOrder.UngroupKeepsExpansion | backend/app/routes.py:954-965 | taking a chain apart leaves the expanded storyboard exactly as it was |
| StoryboardOrder.MembersOffOrder | backend/app/routes.py:933-939 | chain members are off the order and in no other chain |
| StoryboardOrder.OrderNoDup | backend/app/routes.py:933-965 | the order has no duplicates |
| StoryboardSession.Session.WriteSceneCas | backend/app/routes.py:1028-1062 | the write happens exactly when the scene is active and at the expected revision; otherwise not found or conflict and nothing changes |
| StoryboardSession.Session.CommitRequest | backend/app/routes.py:1066-1211 | an edit, approval, rejection or acknowledgement commits exactly the step of the protocol and returns its answer |
| StoryboardSession.Session.ChainScenes | backend/app/routes.py:821-942 | combining commits exactly when the thumbnail rendered, the template has a chained form, and every chosen scene is still the reviewed copy, pending, of one template and without an unacknowledged mismatch; otherwise the first refusal in the original's order is returned and nothing changes |
| StoryboardSession.ChainRefusalIff | backend/app/routes.py:826-932 | the refusals, in order, leave exactly the combinations the commit allows |
| StoryboardSession.Session.UngroupScene | backend/app/routes.py:946-973 | ungrouping is exactly that step and every restored member exists |
| StoryboardSession.Session.ClaimRenderBatch | backend/app/routes.py:474-506 | the ids claimed are those of exactly the positions of the order whose scene is approved at its own revision, each once and in the order's sequence; refused as a bad request exactly when none or more than the cap is ready, and otherwise as a conflict exactly when one is already rendering |
| StoryboardSession.Session.ReleaseRenderBatch | backend/app/routes.py:509-512 | exactly the batch leaves the set of scenes being rendered |
| StoryboardSession.Session.PublishRender | backend/app/routes.py:577-607 | a render is published exactly when the scene is still approved at the rendered revision and registering finds the file, else dropped |
| StoryboardSession.Session.ResolveCachedClip | backend/app/routes.py:410-442 | a clip is reused exactly when the scene is ready at the captured revision, its last render has the same content key and file, and the clip still exists or can be registered again |
| Storyboard.EditOutcome | backend/app/routes.py:1092-1142 | a content change stores the requested values under a new revision and revokes approval, rejection and acknowledgement; resending the same content keeps a standing approval |
| Storyboard.EditAnswer | backend/app/routes.py:1092-1142 | in every reachable session an edit is refused, in this order, without a template, for a grade outside 0 to 8, for a scene that is gone and for one that has moved on; otherwise it stores exactly the values asked for, and if they change the scene, raises the revision, drops the acknowledgement and reopens an approval or rejection |
| Storyboard.ReviewOutcome | backend/app/routes.py:1160-1211 | approving makes exactly the approved content ready; acknowledging and rejecting leave the scene not ready and its content as it was |
| Storyboard.ReviewAnswer | backend/app/routes.py:1160-1211 | approving is refused exactly for an unacknowledged dispute between the stated and the computed answer, acknowledging exactly without a dispute, and all three for a scene that is gone or has moved on; otherwise exactly the decision is stored under a new revision |
| StoryboardSession.Session.RetryScene | backend/app/routes.py:1214-1237 | a retry is refused, in order, for a scene without a candidate, a candidate no longer known, a scene without a requested template, or a failed assembly; otherwise it stores what was assembled, with the grade marker it read, whatever is there now |
| Storyboard.StepKeeps | backend/app/routes.py:386-1237 | every step of the protocol keeps the session invariant, and revisions only go forward; a retry when it stores the content that is there |
| Storyboard.RevisionDeterminesContent | backend/app/routes.py:1028-1142 | at any two moments of any run whose retries store what is there, a scene id and revision determine params, acknowledgement, status and approval |
| Storyboard.ReadyMeansAcknowledged | backend/app/routes.py:1146-1188 | in no run whose retries store what is there is a scene ready to render while it has a mismatch nobody acknowledged |
| Storyboard.HandedOutClipIsCurrent | backend/app/routes.py:410-607 | in every run whose retries store what is there each clip handed out, fresh or cached, serves a file rendered from what the scene then holds |
| Storyboard.NothingIsOrphaned | backend/app/routes.py:903-965 | at any moment of such a run exactly the scenes on the storyboard or inside one of its chains are stored |
| Storyboard.RunPermutes | backend/app/routes.py:903-965 | over any stretch of such a run that does not rebuild the storyboard, the expanded storyboard stays a permutation of what it was, without duplicates and over existing scenes |
| Storyboard.RenderedByOneBatch | backend/app/routes.py:474-512 | in every run, retries included, no scene is in two claimed and unreleased batches, the scenes marked as rendering are exactly theirs, and a claim takes none of them |
| StoryboardRetry.GuardedRunsAreSound | backend/app/routes.py:386-1237 | a run whose retries store what is there meets all four guarantees: content by revision, acknowledged mismatches, current clips, no orphans |
| StoryboardRetry.RetryHarmlessIff | backend/app/routes.py:1227-1236 | after any such run, a retry leaves every continuation sound exactly when the stored scene already has the content the retry stores |
| StoryboardRetry.StaleApprovalAfterRetry | backend/app/routes.py:1215-1237 | a run with one retry in which an approval read before it passes the revision check after it and makes an unseen mismatch ready |
| StoryboardRetry.StaleRenderAfterRetry | backend/app/routes.py:577-607 | a run with one retry in which a render claimed before it is published after a new approval and hands out a clip of the old params |
| TemplateLibrary.TemplateStore.ApproveDraft | backend/app/meta/approval.py:329-426 | the checks, the claim, the disabling and the insertion are one step, refused with the first failing reason, and undone when an index refuses |
| TemplateLibrary.TemplateStore.PromoteVersion | backend/app/meta/promotion.py:45-136 | promotion is exactly that step, with its refusals in order |
| TemplateLibrary.UniqueNamesIff | backend/app/meta/approval.py:64-100 | every session sees unique names exactly when no two enabled versions of one name share a viewer |
| TemplateLibrary.PublishedAlone | backend/app/meta/approval.py:251-307 | a version that passes the checks collides with no other, by name for any viewer or by fingerprint and owner |
| TemplateLibrary.ApproveKeeps | backend/app/meta/approval.py:329-407 | private, ownerless and shared approval keep unique names, one version per fingerprint and owner, full evidence of shared versions, and one version per draft |
| TemplateLibrary.ApprovalNeverLosesToIndexes | backend/app/meta/models.py:198-211 | without an empty session name the unique indexes never abort an approval that passed the checks |
| TemplateLibrary.PromoteKeeps | backend/app/meta/promotion.py:62-133 | promotion keeps the same invariant |
| TemplateLibrary.RunKeeps | backend/app/meta/approval.py:64-80 | the invariant holds in every library any run reaches |
| TemplatePublication.ApproveIff | backend/app/meta/approval.py:103-278 | with named owners an approval goes through exactly for a confirmed pending draft with both reports passed for its artifact and the current versions, complete coverage, enough verified observations and no revoked version of its fingerprint, under a proper name that only what it replaces bears before its viewers |
| TemplatePublication.EveryVersionWasVetted | backend/app/meta/approval.py:329-407 | in every run every version was entered by one approval of a draft that passed all those checks in the library of that moment |
| TemplatePublication.ApprovedRows | backend/app/meta/approval.py:281-307 | an approval disables exactly the enabled versions of the fingerprint that its owner has, and for a shared version the shared one; no other row changes |
| TemplatePublication.PromoteIff | backend/app/meta/promotion.py:62-133 | a promotion goes through exactly for an enabled private version with full evidence when no other enabled version bears its name and no shared one its fingerprint |
| TemplateLibrary.ApprovedStays | backend/app/meta/approval.py:376-385 | over any run an approved draft keeps that status and its evidence |
| TemplateLibrary.LoadEnabledSnapshot | backend/app/meta/dynamic_templates.py:64-121 | the two passes build the snapshot function's entries and report exactly the name collisions of the second pass, for any rows |
| TemplateLibrary.SnapshotLosesNothing | backend/app/meta/dynamic_templates.py:93-121 | in a reachable library every offered row keeps its entry, no entry is invented, and the collision branch is dead, whatever the row order |
| TemplateLibrary.SnapshotCoversFingerprints | backend/app/meta/dynamic_templates.py:93-101 | every fingerprint the session can see is offered under exactly one name, its own version if it has one |
| TemplateLibrary.OwnVersionWins | backend/app/meta/dynamic_templates.py:103-120 | for any rows a name the session owns resolves to a version it owns |
| TemplateLibrary.ApprovedIsOffered | backend/app/meta/approval.py:389-407 | after an approval its audience resolves the approved name to the new version, and only the replaced versions were disabled |
| TemplateLibrary.PromotedIsOffered | backend/app/meta/promotion.py:129-133 | after a promotion every session without its own version for the fingerprint resolves the name to it |
| GenerationJobs.JobQueue.EvaluateAndEnqueue | backend/app/meta/jobs.py:143-197 | a threshold build is queued exactly when the guards allow it, starting from the latest failed job's attempt count |
| GenerationJobs.JobQueue.EnqueueOnDemand | backend/app/meta/jobs.py:200-248 | an own build is queued unless a version is available or one is in flight for this owner |
| GenerationJobs.JobQueue.ClaimNextJob | backend/app/meta/jobs.py:251-291 | the oldest claimable job is leased to the worker; none is left unclaimed when nothing is returned |
| GenerationJobs.JobQueue.FindLatest | backend/app/meta/jobs.py:111-117 | the loop finds the most recent job of the fingerprint, whoever owns it |
| GenerationJobs.JobQueue.CompleteJob | backend/app/meta/jobs.py:294-304 | completion takes effect exactly when the worker holds the lease |
| GenerationJobs.JobQueue.FailJob | backend/app/meta/jobs.py:307-346 | failure takes effect exactly when the worker holds the lease |
| GenerationJobs.JobQueue.RequeueForRefinement | backend/app/meta/review_actions.py:39-85 | rejecting a pending draft requeues its job or hands it to manual authoring, and is undone when the index refuses |
| GenerationJobs.RunKeeps | backend/app/meta/models.py:83-89 | in every reachable queue at most one job per fingerprint and owner is active, leases exist exactly while running, and a failed job is below the maximum with cooldown base·2^(attempt-1) |
| GenerationSteps.OneWaits | backend/app/meta/models.py:83-89 | no two queued or running jobs of one fingerprint share an owner in any reachable queue, an absent owner and an empty one counting as the same |
| GenerationSteps.ThresholdQueuesIff | backend/app/meta/jobs.py:143-197 | a threshold request queues a job exactly when no version is enabled, none of the fingerprint waits without an owner, enough cases are eligible and the newest job is waiting for someone else or a cooled-down failure with attempts left and new triggers; the attempt count goes on from that failure |
| GenerationSteps.OwnQueuesIff | backend/app/meta/jobs.py:200-248 | an own request queues a fresh job exactly when no version is available and none of the fingerprint waits for that owner |
| GenerationSteps.ClaimTakesFirst | backend/app/meta/jobs.py:251-291 | a claim takes the first in line of the jobs that are cooled down or whose lease has expired, for one lease, and builds the revision after the last rejected one; it takes none only when there is none |
| GenerationSteps.HolderOutcome | backend/app/meta/jobs.py:294-346 | the holder of a running job's lease completes it or fails it, with the next attempt count and its cooldown or for good; for anybody else nothing happens |
| GenerationSteps.RequeueOutcome | backend/app/meta/review_actions.py:39-85 | rejecting a pending draft hands its job back for good at the last refinement, otherwise to the queue unless another job waits, and then changes nothing at all |
| GenerationJobs.LostLeaseIsPowerless | backend/app/meta/jobs.py:294-346 | once another worker holds the lease the previous one can neither complete nor fail the job until it claims again, however long the run |
| GenerationJobs.GivingUpIgnoresTheLease | backend/app/meta/jobs.py:349-355 | giving up takes the job from whoever runs it, who can then not complete it |
| GenerationJobs.RequeueKeepsBoundIff | backend/app/meta/review_actions.py:70-85 | a requeue keeps the attempt bound exactly when it revives no job that used up its attempts |
| GenerationJobs.RequeueHarmlessIff | backend/app/meta/review_actions.py:70-85 | a requeue leaves every continuation with guarded requeues within the maximum exactly when it revives no job that used up its attempts |
| GenerationJobs.RunBounded | backend/app/meta/jobs.py:307-346 | over runs whose requeues revive no exhausted job no attempt count exceeds the maximum |
| GenerationJobs.AttemptsCanExceedMaximum | backend/app/meta/review_actions.py:70-85 | for every configuration allowing a second refinement some run takes a job past the maximum although no worker claims before it has ended its previous build |
| SessionStore.SessionStore.RegisterClip | backend/app/session.py:163-189 | registering is insert, expire, count cap, session cap, unlink; nothing but the clock changes when the file is gone; both count caps and every session's byte cap hold afterwards, whatever files are missing |
| SessionStore.SessionStore.RegisterThumbnail | backend/app/session.py:202-222 | the same for thumbnails |
| SessionStore.SessionStore.EnforceGlobalCap | backend/app/session.py:263-300 | evicts the oldest entries of both registries until the total fits and returns their number; a cap of zero or less does nothing |
| SessionStore.SessionStore.EnforceSessionBytes | backend/app/session.py:343-376 | the loop over the oldest entry of one session computes the eviction function and terminates |
| SessionStore.SessionStore.ExpireTtl | backend/app/session.py:326-333 | exactly the entries older than the cutoff leave both registries |
| FreshEntries.ExpiredIff | backend/app/session.py:326-333 | an entry leaves exactly when it is older than the time to live, and the others keep their order |
| SessionStore.SessionStore.PopOldest | backend/app/session.py:336-341 | popping from the front leaves the newest entries up to the cap |
| SessionStore.SessionStore.DeleteOrphanedFiles | backend/app/session.py:310-324 | exactly the evicted paths that no entry or reservation names are unlinked |
| SessionStore.SessionStore.DeleteUntracked | backend/app/session.py:249-261 | exactly the files outside the snapshot are deleted and counted |
| SessionStore.EvictTakesOldestPrefix | backend/app/session.py:280-298 | eviction takes the shortest prefix of the merged registries that brings the rest under the cap and touches nothing outside its scope |
| SessionStore.EvictedAreOldest | backend/app/session.py:343-376 | with a nondecreasing clock nothing evicted is younger than anything kept in the same scope |
| SessionStore.MergeSorts | backend/app/session.py:284-296 | merging the registries by age yields a list sorted by age |
| SessionStore.EvictConserves | backend/app/session.py:277-298 | every entry is afterwards either kept or evicted, once |
| SessionStore.RegisteredWithinLimits | backend/app/session.py:173-188 | after every register both count caps and the byte cap of every session hold |
| FreshEntries.FreshSurvivesIff | backend/app/session.py:173-188 | an entry survives its own registration exactly when it has not expired, its registry may hold any, and it fits its session's bytes together with the thumbnails that share a clip's timestamp |
| SessionStore.RegisterUnlinksExactly | backend/app/session.py:310-324 | no path named by a surviving entry or reservation is unlinked, even under many ids; every evicted path nobody names is; nothing else changes on disk |
| SessionStore.SessionStore.OpenSession | backend/app/session.py:116-133 | a new session joins the index; beyond the cap the first of the index leaves it and exactly its entries leave both registries |
| SessionStore.SessionStore.GetSession | backend/app/session.py:135-140 | a session that is found becomes the last of the index |
| SessionStore.SessionStore.RemoveDirectory | backend/app/session.py:131-132 | exactly the files below the session's directory are deleted |
| SessionRuns.OpenDropsLeastRecent | backend/app/session.py:116-140 | in every run the index stays within its cap and the session that opening another drops was used longer ago than any other in it |
| SessionRuns.RunWithinLimits | backend/app/session.py:163-376 | both count caps, every session's byte cap and the order by age hold in every reachable state, even where files have gone |
| SessionRuns.LosesFileIff | backend/app/session.py:116-376 | in one step a file that is still named is lost exactly by an abort of its path, by a sweep whose snapshot missed it, or by the removal of a dropped session's directory; none of the four eviction policies takes it |
| SessionRuns.LiveFileStaysIff | backend/app/session.py:116-324 | over any stretch of a run a path that stays named keeps its file exactly as long as no such step occurs; the snapshots that miss it were taken before it became named, and the directories removed are those of dropped sessions it lies in |
| SessionRuns.SweepTakesIff | backend/app/session.py:235-261 | any deletion of a sweep works from an earlier snapshot, and a file named at the deletion is lost exactly when its path became tracked in between; what the snapshot tracked is never disturbed |
| SessionRuns.RunServesIff | backend/app/session.py:116-376 | every entry's file is on disk throughout a run exactly when no abort, sweep or directory removal takes a file an entry names at that moment |
| SessionRuns.SweepDisturbsRender | backend/app/session.py:235-261 | a run in which a render reserved after the snapshot is still in flight and its file is gone |
| SessionRuns.EntryLosesFile | backend/app/session.py:149-261 | runs in which a sweep, or an abort, leaves an entry without its file |
| SessionRuns.DroppedSessionLosesRender | backend/app/session.py:116-133 | a run in which a session is dropped while it renders and the reserved file is removed with its directory |
| BeatRoles.RoleBoard.RoleChange | backend/app/meta/v3/beat_expander.py:1110-1122 | a change updates the sparse map and emits exactly as the step function says |
| BeatRoles.RoleBoard.ClearDescendantRoles | backend/app/meta/v3/beat_expander.py:1124-1146 | exactly the entries of the visual's parts that are not deferred are forgotten |
| BeatRoles.RoleBoard.Assign | backend/app/meta/v3/beat_expander.py:1196-1200 | an emphasised target gets the role, emits it, and clears what it restyles |
| BeatRoles.RoleBoard.DimTarget | backend/app/meta/v3/beat_expander.py:1166-1171 | dimming remembers the recorded or initial role once and emits neutral |
| BeatRoles.RoleBoard.RestoreTarget | backend/app/meta/v3/beat_expander.py:1172-1175 | restoring emits the remembered or initial role and forgets it |
| BeatRoles.PlayAgrees | backend/app/meta/v3/beat_expander.py:1110-1153 | after any run the sparse map with whole-visual fallback and descendant clearing says of every target what replaying the actions on it and on its whole visual makes of it |
| BeatRoles.LookupRightIff | backend/app/meta/v3/beat_expander.py:1148-1153 | the lookup is right exactly unless a deferred part without an entry is read through a whole visual that left its initial role |
| BeatRoles.EmittedChangesAreReal | backend/app/meta/v3/beat_expander.py:1110-1122 | a change is emitted exactly when it changes what the actions on its target and its whole visual make of it, with the stated exception for deferred parts without an entry |
| BeatFrames.DescribesFrameIff | backend/app/meta/v3/beat_expander.py:1110-1153 | the map describes the frame after every run, piece by piece, exactly when no two parts share a piece and every piece is drawn in its visual's initial role |
| BeatFrames.EmittedIsVisible | backend/app/meta/v3/beat_expander.py:1110-1122 | in such a scene a change of a part is emitted exactly when some piece of the frame changes colour, misread deferred parts excepted |
| BeatFrames.EmittedInvisibly | backend/app/meta/v3/beat_expander.py:692-729 | a part whose pieces another part already coloured is recoloured by an emitted action that changes nothing |
| BeatFrames.RestoredFrameIff | backend/app/meta/v3/beat_expander.py:1166-1175 | dimming and restoring any target, whatever overlaps it, leaves the frame as it was exactly when every piece it covers had the role that is brought back |
| BeatRoles.WholeChangeUniformIff | backend/app/meta/v3/beat_expander.py:1110-1146 | after a whole-visual change every part shows the role, exactly unless the request was suppressed while parts differed |
| BeatRoles.RestoreUndoesDimIff | backend/app/meta/v3/beat_expander.py:1166-1175 | restoring a dimmed part brings the frame back exactly when an earlier dim still remembers the role it shows, or none is remembered and the part had an entry, is deferred, or its whole is at its initial role |
| BeatRoles.RestoreUndoesWholeDimIff | backend/app/meta/v3/beat_expander.py:1166-1175 | restoring a dimmed whole visual brings the frame back exactly when all its parts showed the role an earlier dim still remembers, or the whole's own if none is remembered |
| BeatRoles.RestoreSkipsLaterEmphasis | backend/app/meta/v3/beat_expander.py:1166-1175 | a target dimmed, then emphasised, then dimmed and restored ends at its initial role, past the emphasis |
| BeatRoles.RestoreForgetsEmphasis | backend/app/meta/v3/beat_expander.py:1166-1175 | emphasising a visual, then dimming and restoring one part, leaves that part at the initial role |
| BeatRoles.DeferredPartMisread | backend/app/meta/v3/beat_expander.py:1110-1153 | after emphasising a visual the lookup misreads its deferred parts: a real change is swallowed and an idle one emitted |
| BeatRoles.EmphasisedPartSurprises | backend/app/meta/v3/beat_expander.py:1110-1175 | with one part emphasised a change of the whole is swallowed, and dimming and restoring the whole loses the emphasis |
| BeatReveals.BeatExpander.RevealUnrevealed | backend/app/meta/v3/beat_expander.py:371-398 | only pending targets are revealed, in order, and recorded |
| BeatReveals.BeatExpander.Expand | backend/app/meta/v3/beat_expander.py:161-197 | the loop over beats stages exactly the cues of each beat in order |
| BeatReveals.LessonNeverRepeats | backend/app/meta/v3/beat_expander.py:371-408 | for every plan, across separate bookkept reveal actions of a lesson no target repeats and no part that is not deferred follows its whole |
| BeatReveals.NothingRevealedTwice | backend/app/meta/v3/beat_expander.py:318-408 | the same across all reveal actions, the strategy's own label reveal included, for distinct beat ids and a plan that names none of the labels its strategy stages |
| BeatReveals.BeatTargetsRevealed | backend/app/meta/v3/beat_expander.py:318-346 | after a beat every target it names is on screen |
| BeatScreen.OnScreenIff | backend/app/meta/v3/beat_expander.py:161-197 | after any number of beats a target is on screen, by one of the reveal actions, exactly when one of those beats asked for it, or for its whole visual if the part is not deferred: by its targets, a custom reveal, a staged ray part or as the answer |
| BeatScreen.BeatShows | backend/app/meta/v3/beat_expander.py:318-408 | after a beat everything it asks for is on screen, and what it newly reveals it asked for and was not there before |
| BeatScreen.PendingPicked | backend/app/meta/v3/beat_expander.py:371-408 | a reveal brings exactly the positions of its targets that are not on screen yet, in their order |
| BeatReveals.AnswerRevealedOnce | backend/app/meta/v3/beat_expander.py:178-184 | the answer is revealed by exactly one action, in the first beat |
| BeatReveals.WorkShown | backend/app/meta/v3/beat_expander.py:185-188 | the arithmetic is shown once per beat that carries the work beat's id |
| BeatReveals.WorkThenValue | backend/app/meta/v3/beat_expander.py:213-226 | outside pair elimination and with distinct beat ids the arithmetic is shown exactly once if there is any, before the conclusion, and the value exactly once, in it |
| FractionBridge.RequireSameWhole | backend/app/meta/v3/compiler.py:1074-1096 | all wholes are read before two are compared, and the check passes exactly when they are literal and equal |
| FractionBridge.LcmIsLeast | backend/app/meta/v3/compiler.py:1099-1100 | the product over the greatest common divisor is the least common multiple |
| FractionBridge.FractionsAreCounts | backend/app/meta/v3/compiler.py:912-1008 | the checks on fractions say exactly what cross products and sums of whole counts say |
| FractionBridge.AcceptedIff | backend/app/meta/v3/compiler.py:829-942 | the gate accepts exactly the plans whose primary visual is no partition and those whose supporting visuals hold exactly four partitions that, taken in document order as second operand, refinements and bridge, satisfy the whole-number conditions of the lesson with the primary and the answer |
| FractionBridge.ZeroDivisionIff | backend/app/meta/v3/compiler.py:865-889 | the gate divides by zero exactly when four supporting partitions have literal parts and both operands have zero |
| FractionBridge.NumberIff | backend/app/meta/v3/compiler.py:1686-1689 | a literal is read as an integer exactly when its value is that integer |
| FractionBridge.AcceptedScales | backend/app/meta/v3/compiler.py:892-1008 | in an accepted plan with a primary partition each refined count is its operand scaled, and the scaled counts add or subtract, as whole numbers, to the bridge's count |
| FractionBridge.BridgeIsEvaluatedAnswer | backend/app/meta/v3/compiler.py:945-1023 | in such a plan the bridge's fraction is the value of the answer expression unless a literal exceeds the evaluator's magnitude cap |
| GuardWitness.CheckGuard | backend/app/meta/dsl/guard.py:154-200 | the guard reports every predicate's verdict, or the first evaluation error |
| GuardMeaning.VerdictMeans | backend/app/meta/dsl/guard.py:154-200 | where its expressions have values a predicate's verdict is what it says of them: running sums and products reach the total, an integral quotient, an order between any two terms; a zero divisor and the first expression error are reported |
| GuardWitness.WithValueChangesOne | backend/app/meta/fixture_mutation.py:179-190 | the replacement changes exactly the one scalar its reference names |
| GuardWitness.CandidateValues | backend/app/meta/fixture_mutation.py:193-216 | the candidates are exactly the bound, zero and sibling values, each once |
| GuardMeaning.CandidatesIff | backend/app/meta/fixture_mutation.py:193-216 | by value the candidates are exactly those at and next to the minimum, at and above the maximum, next to zero, and what the siblings hold |
| GuardMeaning.SiblingsIff | backend/app/meta/fixture_mutation.py:285-302 | a sibling value is exactly what another reference of the predicate reads as a number |
| GuardMeaning.BoundsIff | backend/app/meta/fixture_mutation.py:285-302 | the bounds tried for a reference are those of the field or the entry member it names |
| GuardMeaning.RefsIff | backend/app/meta/fixture_mutation.py:285-302 | the references searched are exactly those that stand in the predicate's expressions |
| GuardMeaning.RefsInOrder | backend/app/meta/fixture_mutation.py:285-302 | those of earlier expressions are searched first |
| GuardWitness.FindWitness | backend/app/meta/fixture_mutation.py:285-302 | a witness is found exactly when some reference and candidate make the predicate fail |
| GuardWitness.EnsureGuardPredicateWitnesses | backend/app/meta/fixture_mutation.py:227-282 | the given fixtures stay a prefix; each added one fails the predicate it was built for and changes one scalar of the base; what stays uncovered has no witness in the full search |
| GuardMeaning.BaseIsFirst | backend/app/meta/fixture_mutation.py:227-282 | the base is the first accepted positive fixture |
| GuardMeaning.FailingIff | backend/app/meta/fixture_mutation.py:219-224 | a record fails on a predicate exactly when all predicates evaluate and this one is false |
| GuardMeaning.CoveredIff | backend/app/meta/validation.py:54-126 | a predicate is covered exactly when some rejecting fixture fails on it |
| GuardWitness.ValidateFixtures | backend/app/meta/validation.py:54-126 | each fixture passes exactly when its outcome is the expected one and an accepted positive one is grounded, and a rejecting one reports exactly the predicates it fails on |
| GuardWitness.RequireAllFixturesAndGuardCoverage | backend/app/meta/validation.py:129-156 | the gate passes exactly when all fixtures behave and every predicate is reported, else names the first failure or exactly the missing predicates |
| GuardWitness.CheckWithWitnesses | backend/app/meta/validation.py:129-156 | after the witnesses are added coverage can be reported incomplete only for predicates with no witness in the full search, and when the params model runs the guard no added witness is ever the fixture reported as failing |
| GuardWitness.PositiveFieldWitnessed | backend/app/meta/fixture_mutation.py:193-302 | a positivity predicate on a bounded scalar field is always witnessed while the guard evaluates with that field at zero |

## Left out

- HTTP handling, cookies, uploads, file formats, the language-model calls, the renderer's subprocess and its timeouts: plumbing around the modelled transitions.
- Text normalisation, tokenising by regular expressions and float formatting of tokens: tokens arrive as canonical keys with an exact value.
- Conversion between floats and fractions: numbers are exact from the start; a non-finite float is an absent number.
- DisplayParentheses.WrappedIff: speaks of one operation on decimal numbers inside another, at any position and with any operand counts; that a pair stays needed whatever surrounds the two is not proved.
- StoryboardSession.Session.RetryScene: what assembling reads is not modelled; it yields any unreviewed scene of the same candidate and grade, or fails, with one refusal for all its failures.
- GuardWitness.ValidateFixtures: which records the params model accepts and which fixtures are grounded are parameters.
- StoryboardSession.Session.ChainScenes: a chosen id that is unknown or off the order when it is looked up, a bad request, has no copy to read and so is no step here.
- Content hashing: the key that is hashed stands for the hash, as if hashing were injective.
- Scene thumbnails and the in-place clearing of a stale thumbnail path: not part of a scene here, so the identity check of a chain commit becomes equality of the remaining fields, which admits at least the commits the original admits.
- Storyboard construction: clearing and appending are separate atomic steps; that the original clears and fills without the lock is not modelled.
- Schema validation of edited params and stored params: a request carries params that already validated.
- SQL and ORM mechanics: rows are maps, a transaction is one step, an integrity error undoes the step; counting queries and other modules' rows enter as parameters.
- How a version gets disabled or revoked and how evidence is computed: any withdrawal and any evidence written while a draft is pending.
- The configured evidence floor and runtime versions are constant over a run.
- TemplateLibrary.RunKeeps: the floor is compared at publication and with frozen evidence; a later rise of the configured floor is not modelled.
- GenerationJobs.JobQueue.ClaimNextJob: one transaction is atomic, so the lost race between selecting and updating cannot occur.
- Making a session's directory, and directories that cannot be removed; other state of a dropped session that requests still hold.
- SessionStore.SessionStore.DeleteOrphanedFiles: failures of unlinking are not modelled; every unlink succeeds.
- SessionStore.SessionStore.DeleteUntracked: the directory listing is taken at one moment, and a file below a subdirectory is not distinguished; in `SessionRuns` the deletions are spread over any number of steps.
- BeatReveals.LessonNeverRepeats: the strategy's own reveal of target labels bypasses the bookkeeping and is not counted there; `NothingRevealedTwice` counts it, under the plan schema's rule that such a plan names no label.
- BeatReveals.BeatExpander.Expand: role changes, traces, moves and callouts are not repeated in the reveal model; which beats a strategy stages itself is a parameter.
- The remaining strategy validators, layout, timing, slots, rotation geometry and visual registry.
- GuardWitness.EnsureGuardPredicateWitnesses: array items that are no objects make a reference inapplicable; the original may raise for some such shapes.
- Dropping ungrounded or duplicate positive fixtures and the single bound-violating negative fixture: easy filters.
- Resolving a pinned template version and caching compiled templates: lookups without an invariant of their own.
