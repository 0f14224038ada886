# The branch-forest engine of stackit, verified in Dafny

stackit keeps git branches as a forest: every tracked branch records a parent, and every parent chain ends at trunk.
Beside the parent a branch's metadata records the commit at which it diverged from that parent, a lock and a scope.
This project models the operations that rewrite that forest and proves what they keep.

| file | what it models |
|---|---|
| `Names.dfy`, `Wrappers.dfy` | the order of branch names, sorted lists, `Option` |
| `Forest.dfy` | parent maps, walks up them, the nearest name outside a set, forests rooted at trunk |
| `Ancestors.dfy` | the capped and the uncapped walk to a surviving parent |
| `StackGraph.dfy`, `LinearShape.dfy` | the stack graph, the linear-shape validator, deletions and runs in a linear forest |
| `Divergence.dfy` | git as an oracle, landed branches, the range of commits a branch owns |
| `Engine.dfy` | the engine object: setting parents, batch reparenting, deletion |
| `DeletionPlan.dfy`, `DeletionSelect.dfy`, `CleanBranches.dfy` | planning a cleanup, selecting what may go, the cleanup from end to end |
| `Metadata.dfy`, `MetadataTx.dfy`, `Locking.dfy` | metadata records, concurrent read-modify-commit-retry writers, batch locking |
| `StateCore.dfy` | the in-memory cache, its children index, scoped rebuilds, lazy loading, scope inheritance |
| `Landed.dfy` | walking past parents that are gone or have landed |
| `TreeView.dfy` | the tree command's view of the forest, worktree anchors left out |
| `Split.dfy` | splitting a branch at some of its commits: the parts made, and where each starts |
| `SplitOwnership.dfy`, `SplitListing.dfy` | whose commits are whose after a split: on any commit graph, and as lists on a linear history |
| `SplitShape.dfy` | the shape of the forest after a split |
| `RateLimit.dfy` | the per-IP token bucket with inline eviction |
| `Examples.dfy`, `ReadingExamples.dfy` | small worked examples of the operations |

How the parts of the program appear:

- Branch names and commits are strings. A parent map is a Dafny `map`; `WellFormed` says that trunk is untracked and every
  tracked branch's chain reaches it, which `DepthsRank` shows to be the same as having a rank that falls along every edge.
  What deletion, the tree view and a split leave is stated for forests; a cleanup for `Grounded` ones, whose chains end at
  trunk or at a ghost, a recorded parent that does not exist. The walk past landed parents is stated for acyclic maps;
  setting parents, batch reparenting, the validator, planning a cleanup, the capped walk and scope inheritance for any parent
  map, cyclic ones included. The two uncapped walks ask that they end, as they do on every acyclic map (`AcyclicEscapes`),
  and the deletion of one branch asks that it is not its own parent, as no loaded branch is.
- Git is the datatype `Git` of answers: tips, the ancestor relation, merge bases, and whether a branch has landed. `Sound`
  asks of it only that a merge base is an ancestor of the commit it was computed for and that no ref or commit is nameless.
- A single engine's metadata write is one step that succeeds or changes nothing. What other writers may do meanwhile is the
  subject of `MetadataTx.dfy`, a transition system over any number of writers with a compare-and-swap over every staged
  record and reads that may be stale.
- Checkouts, ref deletions and the veto on deleting a branch (`canDelete`: its worktree cannot be freed) are outcomes the
  model does not choose: nondeterministic failures, and a function from branch to answer. An engine that is `reliable`, and
  a store that is `calm`, has no such failures; there the operations are proved to succeed whenever their condition holds.
- Clock readings are inputs of the limiter; tokens and times are real numbers.

## What holds only under a condition

These are facts about the code. Each is stated with the condition under which the intended property holds.

- **Eviction and the window bound** (`EvictionInvisibleIff`, `WindowBoundIff`). Sweeping idle buckets is invisible, and a
  client is admitted at most burst + rate × T times in a window of length T, exactly when burst ≤ rate × idle time. The
  defaults meet it (60 ≤ 20 × 600, `DefaultsRefillInTime`); the configuration does not enforce it.
- **Deletion** (`DeleteBranches`, `DeleteBranch`, `RebasedChildIsStuck`). Divergence points are read, and checked against the
  children's tips, only after the refs are deleted. On a forest, once the refs are gone and no metadata write fails, a
  deletion succeeds iff every child of the deleted branches stores a divergence revision that it descends from. A child that
  was tracked without one, or was rebased by hand below it, makes the call fail with the branches gone, and children not yet
  moved go on naming them. On success every survivor's range is kept. Whatever the outcome, ranges are kept but for
  surviving children without a stored revision: theirs cannot be read any more (`SurvivorsRead`).
- **Batch reparenting** (`ReparentBranchesToParents`, `HalfReorderCycles`). An accepted divergence-preserving batch succeeds,
  when no write fails, iff no branch is sent to itself and every branch descends from the base of its own range. A failure
  leaves the first moves of the batch made; for a reorder that can be a cycle. For the moves of a cleanup it is always a
  forest (`PartWayIsForest`). Whatever the outcome, ranges are kept but perhaps that of one mover without a stored revision,
  where the batch stopped (`PartWayKeeps`).
- **Cleanup** (`Cleanup`, `CanClean`, `RebasedSurvivorIsStuck`). When the shape is not refused and no write or ref deletion
  fails, a cleanup succeeds, on sound git answers, iff every survivor of a planned parent can leave it and every branch that
  stays below a ghost that goes descends from its stored revision. To leave, a survivor must descend from the base of its own
  range when the parent went as merged or empty, and have a merge base with its nearest ancestor outside the plan when the
  parent went for another reason.
- **Ghosts** (`BuildDeletionPlan`, `StuckBelowGhost`, `GhostForksStacks`). A recorded parent whose branch was deleted behind
  the program's back is planned only after the traversal, so a survivor above which a ghost comes first is moved to the ghost
  and only then, by the batch deletion, to trunk. The first move cannot be made when it recomputes, and the shape rule may
  refuse it although the graph is linear. A filter does not keep a ghost: planning again marks every ghost again.
- **Recompute mode** (`ReparentBranchesRecomputing`, `SwapRefusedStepwise`). A batch accepted as a whole is judged again move
  by move, and succeeds, when no write fails, iff each move fits the graph that those before it leave.
- **Tracking past a landed parent** (`TrackBranchPastLandedParent`, `PriorLeftBehind`). The prior parent and revision are
  written before the new parent is checked. When no write fails the call succeeds iff, with the prior parent recorded, the
  shape rule allows the new parent and git finds a merge base; otherwise exactly the prior parent and revision are left, and
  then every stored revision is an ancestor of its tip iff the prior revision is one of the branch's.
- **Scoped rebuild** (`RebuildBranches`, `EmptyParentDrifts`). The branch states always equal a full rebuild's, and the
  children index agrees with it under every non-empty name. Under the empty name, which a full load indexes and the merge does
  not, it agrees iff the list the loaded cache already had there, drifted or not, is that of the branches that now have an
  empty parent name; for a cache not loaded before, iff the branches with an empty parent name are those of the forced load.
- **Lazy loading** (`LazyAgreesWithFull`, `TrunkTrackedLazily`). Loading branch by branch answers as a full load does iff
  trunk's own record names no parent: only the full load skips trunk.
- **The linear validator** (`VerdictIs`, `AcceptedIsLinear`, `RepeatedMoverRefused`). What it accepts is linear, for any
  batch. When movers and targets exist and stay, it accepts exactly the batches that leave a linear graph and in which every
  move that a later one of the same branch overrides went to trunk, or to a branch that no other is sent to or ends up at
  (`NoClash`). Without such moves the verdict is the shape left (`VerdictIsExact`).
- **Splits** (`SplitOwnership.SplitPartitions`, `SplitKeepsAnchored`, `MergedSplitOverruns`). On any commit graph no two parts
  own the same commit. The parts own exactly the commits the branch owned iff the commits its divergence point and its tip
  have in common are ancestors of the oldest part's tip; for a branch that descends from its divergence point, iff that point
  is one. The same condition decides, in a chain or side by side, whether every stored revision stays an ancestor of its tip.
  Offsets are positions in a list of all the branch's own commits (`internal/actions/split/split_commit.go:107-117`) but are
  resolved along first parents (`internal/engine/engine_split.go:70`), so on a branch that holds a merge an offset from that
  list may cut below the divergence point.
- **A refused single deletion** (`DeleteBranch`) may already have moved the checkout from the branch to trunk.

## Model

| member | source | states |
|---|---|---|
| `Names.LessAt` | internal/engine/stack_graph.go:126 | Names are ordered by the first character in which they differ, and a name comes before what extends it. |
| `Ancestors.NearestSurvivingParent` | internal/engine/branch_mutations.go:210-219 | On any parent map, cyclic or not, the result is not being deleted (trunk being spared); it is the first survivor on the walk whenever the unbounded walk meets one, so the cap of len(toDelete)+1 cuts off nothing, and trunk when it meets none. |
| `Forest.LongWalkNeverEscapes` | internal/engine/branch_mutations.go:198-219 | The pigeonhole behind the cap: a walk whose first n+1 names all lie in a set of n names never leaves that set. |
| `Forest.AcyclicEscapes` | internal/engine/engine_reader.go:122-132 | On a map in which no branch is its own ancestor, a walk leaves every set of tracked branches, so every uncapped walk ends. |
| `Ancestors.FindNearestNonExcludedAncestor` | internal/engine/engine_reader.go:122-132 | The uncapped walk ends whenever it meets a name that is untracked or not excluded, and returns the first such name, or trunk if that name is excluded. |
| `Ancestors.WalksAgree` | internal/engine/engine_reader.go:122-132 | When every excluded branch is tracked, the uncapped and the capped walk are after the same branch. |
| `StackGraph.ChildBranches` | internal/engine/stack_graph.go:37-161 | The children of a branch are, sorted and without duplicates, exactly the existing branches whose recorded parent it is. |
| `LinearShape.ValidateLinearParentMovesAfterRemovals` | internal/engine/branch_tracking.go:506-555 | A batch is accepted iff the rule is off, nothing moves, or the edges left once movers are detached, removed branches dropped and movers attached give no branch but trunk two children. |
| `LinearShape.AcceptedIsLinear` | internal/engine/branch_tracking.go:506-555 | Whatever the batch holds, one that is accepted leaves, when really applied, a graph with at most one child under every branch but trunk. |
| `LinearShape.VerdictIs` | internal/engine/branch_tracking.go:506-555 | When movers and targets exist and stay, a batch is accepted iff really applying it leaves a linear graph and no overridden move went to a branch, other than trunk, that another branch is sent to or ends up at. |
| `LinearShape.VerdictIsExact` | internal/engine/branch_tracking.go:506-555 | So for a batch that sends no branch to two places, it is accepted iff really applying it leaves a linear graph. |
| `LinearShape.MoveOrderIrrelevant` | internal/engine/branch_tracking.go:506-555 | Two lists of the same moves, each sending a branch to one place, give the same parents and the same verdict. |
| `LinearShape.RepeatedMoverRefused` | internal/engine/branch_tracking.go:506-555 | A batch naming a branch twice is refused although applying it leaves a linear graph: its overridden move clashes. |
| `LinearShape.SwapRefusedStepwise` | internal/engine/branch_tracking.go:450-458 | Swapping the tops of two stacks is accepted as a whole, while each of its two moves alone is refused, so recompute mode, which judges every move again, cannot make it. |
| `LinearShape.AcceptedAfterRemoval` | internal/engine/branch_mutations.go:301-320 | A batch accepted before its removals are made is accepted again by the reparenting that follows them. |
| `LinearShape.OneHangs` | internal/engine/branch_mutations.go:259-276 | In a linear forest only one survivor hangs below a branch when only deleted branches lie between. |
| `LinearShape.DeletionAccepted` | internal/engine/branch_mutations.go:259-276 | In a linear forest the moves of any batch deletion that spares trunk pass the validator. |
| `LinearShape.DeletionKeepsForest` | internal/engine/branch_mutations.go:259-322 | Deleting any set of branches that spares trunk, survivors going to their nearest surviving ancestor, leaves a forest: every parent is trunk or a survivor and every chain reaches trunk. |
| `LinearShape.StepKeepsLinear` | internal/engine/branch_tracking.go:181-204 | Every successful parent change, divergence-preserving batch or deletion keeps a linear graph linear. |
| `LinearShape.RunKeepsLinear` | internal/engine/branch_tracking.go:181-204 | Along any run of such operations, of any length and in any order, a linear forest stays linear. |
| `Engine.Engine.SetParentName` | internal/engine/branch_tracking.go:272-293 | Only a branch becoming its own parent is refused outright; a failure changes nothing, a success changes that one parent. |
| `Engine.Engine.SetParentPreservingDivergence` | internal/engine/branch_tracking.go:299-319 | Success moves the branch and pins it at the given commit, which is then an ancestor of its tip; a failure never changes a revision, but may leave the parent moved. |
| `Divergence.OwnRangeIs` | internal/engine/branch_view.go:30-64 | A branch's own commits end at its tip and start at its stored revision, or without one at the tip of its parent, trunk where none is recorded; trunk owns none, and a branch without those refs cannot be read. |
| `Divergence.FreshRevisionIs` | internal/engine/branch_tracking.go:236-260 | What recomputing leaves stored: the old revision for a branch that leaves a landed parent, the merge base for any other. |
| `Divergence.MergedParentKeeps` | internal/engine/branch_tracking.go:236-260 | In a stack of two whose lower PR is merged, moving the upper branch to trunk keeps its revision. |
| `Divergence.OpenParentDoesNot` | internal/engine/branch_tracking.go:236-260 | With the lower PR open it gets the merge base, and comes to own the lower branch's commits. |
| `Engine.Engine.SetParentRecomputingDivergence` | internal/engine/branch_tracking.go:209-268 | Success moves the branch. Its revision stays what it was when the branch still descends from it and the old parent has landed: its PR is merged, it is merged into the new parent, or it or that revision is in trunk and the new parent is trunk. Otherwise it becomes the merge base with the new parent; no other revision changes. It fails without a merge base, and a failure changes nothing. |
| `Engine.Engine.SetParent` | internal/engine/branch_tracking.go:181-204 | In either mode: refused exactly when the shape rule forbids the graph that would be left; stored revisions stay ancestors of their tips. Preserving succeeds, when no write fails, iff the branch has a stored revision, or a parent with a tip, that it descends from, and pins it there, keeping every range that could be read. Recomputing succeeds iff there is a merge base, leaves the revision a landed parent or the merge base calls for, and leaves all other branches' ranges alone. |
| `Engine.Engine.TrackBranchPastLandedParent` | internal/engine/branch_tracking.go:103-127 | Success keeps stored revisions ancestors of their tips and stores what a recompute from the recorded prior parent calls for. When no write fails it succeeds iff, with the prior parent recorded, the shape rule lets the branch hang from the new parent and there is a merge base; otherwise exactly the prior parent and revision are left, or nothing if they are not worth recording. A failing write leaves them or nothing. |
| `Engine.PriorAnchored` | internal/engine/branch_tracking.go:103-127 | Recording a prior revision keeps every stored revision an ancestor of its tip iff the branch descends from it. |
| `Engine.PriorLeftBehind` | internal/engine/branch_tracking.go:103-127 | At a branch with no history in common with its new parent the call cannot succeed, and what it leaves is a stored revision that is no ancestor of the tip. |
| `Engine.Engine.BatchDivergencePoints` | internal/engine/engine_branch_info.go:65-71 | The points captured for a batch are the bases of the commit ranges the branches own, for exactly those whose range can be read: the stored revision, or without one the tip of the parent, or of trunk where none is recorded. |
| `Engine.PinnedRanges` | internal/engine/branch_tracking.go:467-492 | Moving a batch of branches pinned at the divergence points captured beforehand leaves the range of every branch, moved or not, unchanged, even where a mover's old parent moves in the same batch. |
| `Engine.Engine.ReparentPreservingDivergence` | internal/engine/branch_tracking.go:467-492 | When no write fails the batch succeeds iff no branch is sent to itself and each descends from the base of its own range. Success makes all moves and leaves every branch's range unchanged. A failure leaves the first moves made and their branches pinned, the next perhaps made but not pinned, and nothing else written; nothing at all if some mover's range cannot be read. Whatever the outcome, stored revisions stay ancestors of their tips and all ranges are kept but perhaps that of one mover without a stored revision. |
| `Engine.PartWayKeeps` | internal/engine/branch_tracking.go:467-492 | However far a batch got, every range is what it was, but perhaps that of one mover without a stored revision, where it stopped, and stored revisions stay ancestors of their tips. |
| `Engine.Engine.ReparentBranchesToParents` | internal/engine/branch_tracking.go:442-463 | The batch is judged once, as a whole; refusal changes nothing; when no write fails an accepted batch succeeds iff every mover can be pinned. Success makes all moves and changes no branch's commit range; a failure leaves the first moves made. Whatever the outcome, stored revisions stay ancestors of their tips and all ranges are kept but perhaps that of one mover without a stored revision. |
| `Engine.Engine.ReparentBranchesRecomputing` | internal/engine/branch_tracking.go:442-463 | Recompute mode judges the batch as a whole and then each move; when no write fails an accepted batch succeeds iff each move, in the graph the moves before it leave, is not to the branch itself, keeps to the shape rule and has a merge base. Success makes all moves, keeps stored revisions ancestors of their tips, changes no revision of a branch that does not move, and, when no branch moves twice, leaves each mover the revision its own old parent and revision call for. A failure leaves the first moves made. |
| `Engine.Engine.ApplyParentUpdatesAfterRemovals` | internal/engine/branch_tracking.go:379-427 | A cleanup's batch is judged by the graph left once the removed branches are gone. When no write fails an accepted batch succeeds iff no branch is sent to itself, each branch to be preserved descends from the base of its own range, and each to be recomputed has a merge base with its new parent. Success makes all moves, keeps the range of every branch no update recomputes, and leaves each recomputed branch the revision its own old parent and revision call for when no branch is updated twice; a self-parent or a refusal changes nothing; any other failure leaves the first moves made. |
| `Engine.KeptRanges` | internal/engine/branch_tracking.go:379-427 | In a batch of both modes, every branch that no update recomputes keeps its own commits. |
| `Engine.UpToNext` | internal/engine/branch_tracking.go:379-427 | One step of a batch that updates no branch twice: an update that leaves its branch at the revision called for in the state before it keeps the branches done so far at the revisions called for in the state before the batch, and those still waiting as they were. |
| `Engine.HalfReorderCycles` | internal/engine/branch_tracking.go:467-492 | A reorder of two branches takes a forest to a forest, but stopped after its first move it leaves the two each other's parents. |
| `Engine.Engine.PlanDeletionMoves` | internal/engine/branch_mutations.go:259-271 | Every surviving child of a deleted branch gets a move, nothing else does, and each goes to the first survivor above it, or to trunk when there is none. |
| `Engine.BatchWalk` | internal/engine/branch_mutations.go:240-271 | On a forest, a walk that knows only the parents of the batch finds the survivor a walk over all parents finds. |
| `Engine.DeletionIsSafe` | internal/engine/branch_mutations.go:259-276 | On a forest the moves put every survivor under its nearest surviving ancestor, and on a linear one they pass the validator. |
| `Engine.DeletionVerdict` | internal/engine/branch_mutations.go:259-276 | However a deletion lists its moves, the shape rule judges them alike. |
| `Engine.DeletionFitsIff` | internal/engine/branch_mutations.go:259-276 | In a forest the shape rule lets a deletion through iff it moves nothing or leaves a linear graph. |
| `Engine.ForestMovesLead` | internal/engine/branch_mutations.go:259-271 | On a forest no deletion moves trunk or sends a branch to itself. |
| `Engine.RootedCanMove` | internal/engine/branch_mutations.go:301-322 | With a batch's refs gone, its surviving children can be moved iff each descends from a revision stored for it. |
| `Engine.RebasedChildIsStuck` | internal/engine/branch_tracking.go:299-319 | A forest in which every child of the deleted branch stores a revision, and one of them, rebased since, does not descend from it. |
| `Engine.Engine.RemoveAndReparent` | internal/engine/branch_mutations.go:278-336 | After the refs are gone and when no write fails: success iff every child can still be pinned. Success leaves survivors' ranges as they were; a failure leaves the batch gone and the first moves made, and no move at all if some child has no stored revision. Whatever the outcome, the ranges are those read once the refs were gone and stored revisions stay ancestors of their tips. |
| `Engine.RangesAfterRemoval` | internal/engine/branch_mutations.go:278-322 | Once a batch's refs are deleted, a child of the batch can be read iff it has a stored revision, and every range that can be read is the old one. |
| `Engine.Engine.DeleteBranches` | internal/engine/branch_mutations.go:221-336 | It is refused iff trunk is in the batch, the shape rule forbids the graph that would be left, or a ref or checkout cannot be changed; a refusal changes no branch, and a linear forest is never refused. Otherwise exactly the batch and its refs are gone, trunk is checked out if one of them was, and each surviving child is where it was or at its survivor; on a forest, when no write fails, the call succeeds iff every such child descends from its stored revision. Whatever the outcome, survivors keep their ranges, except children without a stored revision, which cannot be read any more, and stored revisions stay ancestors of their tips. On success survivors hang from their nearest surviving ancestor, all ranges are kept, a linear graph stays linear, and the children to restack are exactly the survivors whose parent went. |
| `Engine.Engine.DeleteBranch` | internal/engine/branch_mutations.go:111-193 | The same for one branch, its children going to its parent, with the same conditions for refusal and success and the same step of a run in a linear graph; a shape refusal may already have moved the checkout to trunk. |
| `DeletionPlan.DeletionPlan.RemoveBlocker` | internal/actions/clean_branches.go:103-107 | Takes one blocker off one planned branch and changes no other entry. |
| `DeletionPlan.PartialNearest` | internal/actions/clean_branches.go:318-352 | For a visited branch the plan so far gives the same nearest surviving ancestor as the final plan, since its whole chain has been visited. |
| `DeletionPlan.PlanReparentIfNecessary` | internal/actions/clean_branches.go:560-581 | A branch whose parent is planned gets a move to its nearest ancestor outside the plan, preserving divergence iff the parent is merged or empty, and stops blocking that parent; any other branch leaves the plan alone. |
| `DeletionPlan.ShouldPreserveDivergenceOnReparent` | internal/actions/clean_branches.go:585-597 | True iff the old parent is planned because its PR merged, it is in trunk, or it is empty with a PR. |
| `DeletionPlan.VisitBranch` | internal/actions/clean_branches.go:318-345 | One step of the traversal keeps the plan right for the branches visited: blockers are the children unvisited or planned, and visited survivors of planned parents have their one move. |
| `DeletionPlan.WalkComplete` | internal/actions/clean_branches.go:318-345 | When the worklist is empty every branch of the forest walked, and every ghost, counts as visited. |
| `StackGraph.SeenIsForest` | internal/actions/clean_branches.go:300-336 | Whatever the recorded parents, those of the branches whose chain comes to trunk or to a ghost form a forest once the ghosts are hung from trunk, and hold the children of trunk, of ghosts and of one another. |
| `DeletionPlan.AppendStrandedRoots` | internal/actions/clean_branches.go:510-556 | Exactly the branches whose recorded parent does not exist are queued, and exactly the missing parents are marked for deletion. |
| `DeletionPlan.BuildDeletionPlan` | internal/actions/clean_branches.go:290-365 | For every parent map, ghosts and cycles included, and set of statuses: exactly the branches with a status and the ghosts are planned. A branch whose chain comes to trunk or to a ghost is blocked by exactly its planned children, anything else by nothing; each such survivor whose parent exists and is planned has exactly one move, to its nearest ancestor that exists outside the final plan, or to a ghost if one comes first, and no other branch has any. |
| `DeletionSelect.PassesLocally` | internal/actions/clean_branches.go:459-495 | A planned branch passes with all its planned descendants iff it passes itself and its planned children pass with theirs. |
| `DeletionSelect.AskLayer` | internal/actions/clean_branches.go:477-485 | The candidates that may go are selected in order, and exactly the others leave the plan. |
| `DeletionSelect.ReleaseLayer` | internal/actions/clean_branches.go:490-493 | A selected layer leaves the plan and unblocks exactly the parents of its members. |
| `DeletionSelect.LayerProgress` | internal/actions/clean_branches.go:463-495 | A layer keeps the loop's invariant: selected branches pass, rejected ones fail, and the rest are blocked by their planned children not selected yet. |
| `DeletionSelect.BlockedFails` | internal/actions/clean_branches.go:459-495 | A branch left over when all are blocked has a planned descendant that was rejected. |
| `DeletionSelect.SelectBranchesForDeletion` | internal/actions/clean_branches.go:463-495 | The selection terminates and holds, once each and children before parents, exactly the planned branches that may be deleted together with all their planned descendants; it comes in layers, each in order of name, a branch being in the layer after the last of its planned children; no branch is asked about twice, or before all its planned children were selected. Whatever the plan, what is selected is planned and may be deleted. |
| `DeletionSelect.SelectionUnique` | internal/actions/clean_branches.go:463-495 | There is one such list: neither what is selected nor its order depends on the order in which the plan's map is gone through. |
| `CleanBranches.PlannedAreDeletionMoves` | internal/actions/clean_branches.go:599-626 | The planned moves are the moves a deletion of the whole plan would make, and applying them puts every survivor under its nearest ancestor outside the plan. |
| `CleanBranches.ReparentedForest` | internal/actions/clean_branches.go:599-626 | Reparenting keeps the forest and leaves no survivor under a planned branch. |
| `CleanBranches.PartWayIsForest` | internal/actions/clean_branches.go:599-626 | However many of the planned moves have been made when one fails, what is left is a forest without new ghosts, each branch where it was or at its nearest ancestor outside the plan. |
| `CleanBranches.StrandedByGhosts` | internal/actions/clean_branches.go:379-457 | Whatever is vetoed, the batch handed to DeleteBranches has no surviving child left to move but children of ghosts, and without ghosts none. |
| `CleanBranches.GonePartWayIsForest` | internal/actions/clean_branches.go:379-457 | However far that deletion gets past its refs, what is left is a forest without new ghosts. |
| `CleanBranches.UpdatesFit` | internal/actions/clean_branches.go:599-626 | The planned moves can all be made iff every survivor of a planned parent can leave it: by descending from the base of its own range where the parent's reason keeps divergence points, by having a merge base with its nearest ancestor outside the plan elsewhere. |
| `CleanBranches.RebasedSurvivorIsStuck` | internal/actions/clean_branches.go:585-597 | A child rebased by hand below its stored revision cannot leave a parent that goes as merged, as contained in trunk or as empty, and can leave the same parent when it goes for any other reason. |
| `CleanBranches.UnrelatedSurvivorIsStuck` | internal/engine/branch_tracking.go:209-268 | A survivor with no history in common with trunk cannot leave a parent that goes as closed. |
| `CleanBranches.StuckBelowGhost` | internal/actions/clean_branches.go:560-581 | A survivor whose nearest ancestor outside the plan is a ghost without a ref is sent to the ghost, and cannot leave a parent that goes as closed. |
| `CleanBranches.GhostForksStacks` | internal/actions/clean_branches.go:560-581 | In a linear graph with two planned branches on one ghost, each with a survivor on it, the planned moves put both survivors under the ghost, and the validator refuses them. |
| `CleanBranches.ApplyReparentMoves` | internal/actions/clean_branches.go:599-626 | When no write fails and the shape is not refused, it succeeds iff every update can be made. Success applies every planned move, keeps the ranges of all branches no move recomputes, and gives the recomputed ones their fresh divergence point; a shape refusal changes nothing. |
| `CleanBranches.ReparentSurvivors` | internal/actions/clean_branches.go:148-187 | Applying a plan's moves leaves every survivor under its nearest ancestor outside the plan and planned branches where they were, and whatever the outcome a forest without new ghosts. It succeeds, when no write fails and the shape is not refused, iff every survivor of a planned parent can leave it; a refusal changes nothing, and a linear forest without ghosts is never refused. Of any plan, also of another forest, a success makes exactly the moves. |
| `CleanBranches.ExecuteDeletions` | internal/actions/clean_branches.go:379-457 | On an already reparented plan exactly the selection is deleted; the rest is a forest with its ranges kept, planned branches that stayed keep their parents, and children of a ghost that goes hang from trunk. Once the refs are gone and no write fails it succeeds iff the children of ghosts that stay descend from their stored revisions; without ghosts only a failing ref deletion can fail. |
| `CleanBranches.Cleanup` | internal/actions/clean_branches.go:106-204 | For every forest, ghosts included, set of statuses and veto, whatever the outcome, what is left is a forest without new ghosts. On success every survivor's parent is trunk, a survivor or a ghost whose deletion was vetoed, survivors of the plan hang from their nearest ancestor outside it (from trunk if that is a ghost that went), and exactly the branches passing with all planned descendants are gone. A surviving branch keeps its own commits, or, when its parent went unmerged, owns them from its fresh divergence point on. When the shape is not refused and no write or ref deletion fails, it succeeds iff every survivor of a planned parent can leave it and every branch that stays below a ghost that goes descends from its stored revision. A linear forest without ghosts is never refused. |
| `CleanBranches.ExecuteBranchDeletions` | internal/actions/clean_branches.go:148-204 | The same for a plan made earlier. With a filter it is made anew for exactly the planned branches in the filter, with the statuses planned for them, and all ghosts, so the forest the plan was made for does not matter; whatever the outcome no planned branch outside the filter is deleted. Without one the plan is carried out as it is, and does the same if the forest has not changed. Of any plan a success makes exactly its moves and deletes planned branches only, sending their children to the nearest survivor, keeps the ranges no move recomputes, and keeps stored revisions ancestors of their tips. |
| `CleanBranches.OrphansThroughMoves` | internal/actions/clean_branches.go:148-204 | Once the survivors have left their planned parents, the branches the batch deletion still has to move descend from their stored revisions iff the children of ghosts did at the start: whoever the moves took to a ghost is pinned or recomputed. |
| `CleanBranches.CleanupAccepted` | internal/actions/clean_branches.go:183-185 | In a linear forest without ghosts the moves of any plan pass the validator with the whole plan removed, whatever is vetoed later. |
| `CleanBranches.PlanFitsIff` | internal/actions/clean_branches.go:183-185 | Without ghosts the shape rule lets a plan through iff no survivor is to move or deleting the whole plan leaves a linear graph. |
| `CleanBranches.FullCleanupIsLinear` | internal/actions/clean_branches.go:148-204 | A cleanup of a linear forest without ghosts in which nothing is vetoed leaves a linear forest. |
| `CleanBranches.RangesThroughCleanup` | internal/actions/clean_branches.go:148-204 | Across both phases, a branch not deleted keeps its own commits unless its parent went for a reason that does not keep divergence points. |
| `CleanBranches.RebasedAreFresh` | internal/actions/clean_branches.go:585-626 | Across both phases, a survivor whose parent went for another reason owns the commits from the revision a recompute for its nearest ancestor outside the plan leaves, to its unchanged tip. |
| `MetadataTx.SwapIsApply` | internal/engine/transaction.go:222-354 | A swap that finds the versions it read writes what the update would write on the records as they stand. |
| `MetadataTx.NextKeepsInv` | internal/engine/transaction.go:438-471 | Any step of any writer keeps the records equal to the replay of the commit log, and the log only grows. |
| `MetadataTx.RunsReplayCommits` | internal/engine/transaction.go:222-354 | In every interleaving of any number of writers, with stale reads, retries, git asked anew on each attempt and locks staged for whatever subset of the targets could be read, the records are the committed updates applied in commit order; a writer that succeeds has committed an attempt at the update it set out to make exactly once, one that fails never, and none tries more than five times. |
| `MetadataTx.AcknowledgedStands` | internal/engine/branch_tracking.go:586-631 | A parent, revision, scope or lock that an acknowledged update wrote is the one it was to write, given the record its commit found (for a recompute the revision kept from that record, or the merge base), and stands until a later acknowledged update of the same field: no other commit loses it. |
| `MetadataTx.SucceededOnce` | internal/engine/transaction.go:438-471 | A writer that succeeded made exactly one commit, and that commit is of what it set out to do: the same branch, and the same parent, revision, scope or reason; for a lock on some of the branches named. |
| `MetadataTx.UnfinishedWroteNothing` | internal/engine/transaction.go:438-471 | A writer that failed, or has not succeeded yet, has no commit. |
| `MetadataTx.UndisturbedSucceeds` | internal/engine/transaction.go:438-471 | A writer that reads the records as they stand and is not disturbed succeeds, with every field it is about as it is to be and every other as it was. |
| `MetadataTx.DisturbedRetries` | internal/engine/transaction.go:438-471 | A writer whose records have changed writes nothing, and tries again up to five times in all. |
| `Locking.SharedStore.Commit` | internal/engine/transaction.go:222-354 | All staged records are written if each is at the version read, and otherwise none. |
| `Locking.TryLock` | internal/engine/branch_tracking.go:683-743 | One attempt reports each branch in exactly one of the two lists; its own write, if any, is the last one made during it; the affected branches then hold the reason as their lock, and all else is as found. It affects none without that write. |
| `Locking.SetLocked` | internal/engine/branch_tracking.go:670-747 | However attempts, conflicts, writes of others and unreadable records fall, every branch is in exactly one of the affected list and the errors. The call writes at most once, after all writes of others during it: then every affected branch holds the reason as its lock, its other fields and every other record are as found. Without an affected branch it changes nothing. Only conflicts are retried, and there are at most five attempts; undisturbed it locks every branch. |
| `Locking.LockingIsApply` | internal/engine/branch_tracking.go:670-747 | That is exactly what the lock update among the concurrent writers does. |
| `StateCore.StateCore.RemoveBranch` | internal/engine/state_core.go:119-131 | Drops the branch, its edge from its parent, and its own children list. |
| `StateCore.StateCore.UpdateBranchStateFromMeta` | internal/engine/state_core.go:210-240 | Takes over a record's revision, scope, lock and type, and moves the branch's edge to its parent; the empty parent name is never indexed, and a record that names no parent leaves parent and index alone. No other branch changes. |
| `StateCore.StateCore.ApplySharedMetadata` | internal/engine/state_core.go:149-193 | Whatever order the records come in, exactly the branches naming a parent other than themselves, trunk apart, have a state, with the fields of their records, and each children list is sorted and holds exactly the branches naming that parent. |
| `StateCore.IndexUnique` | internal/engine/state_core.go:149-193 | The states determine the children index. |
| `StateCore.ReattachedIndex` | internal/engine/state_core.go:210-240 | Taking over one record keeps a right index right under every name but the empty one, whose list is left alone. |
| `StateCore.DetachedIndex` | internal/engine/engine_impl.go:448-467 | Dropping a branch while keeping its children's list keeps the index right in the same way, so children that still name it stay listed. |
| `StateCore.StateCore.MergeOne` | internal/engine/engine_impl.go:443-467 | One re-read record is taken over, or the branch dropped, with the index right under every non-empty name and untouched under the empty one. |
| `StateCore.Cache.RebuildBranches` | internal/engine/engine_impl.go:420-470 | If only the named branches' records changed, then for any order of names, loaded before or not, however stale what was cached or already read of the named branches, and whatever an earlier scoped rebuild left in the index under the empty name, the states equal a full rebuild's and the index agrees under every non-empty name. It is the full rebuild's iff, for a loaded cache, its list under the empty name is that of the branches that now have an empty parent name, and otherwise iff those branches are the ones of the forced load. |
| `StateCore.EmptyParentDrifts` | internal/engine/engine_impl.go:448-467 | A branch reloaded with an empty parent name is missing from the index a full rebuild would build. |
| `StateCore.Cache.LazyAgreesWithFull` | internal/engine/engine_impl.go:282-334 | Loading branch by branch gives what a full load gives iff trunk's own record names no parent. |
| `StateCore.TrunkTrackedLazily` | internal/engine/engine_impl.go:304-334 | With a record that names a parent for trunk, trunk is tracked when loaded on its own and not in a full load. |
| `StateCore.Cache.EnsureSharedLoaded` | internal/engine/engine_impl.go:282-302 | The first call loads every branch and leaves states and index those of a full load; later calls change nothing. |
| `StateCore.Cache.EnsureBranchSharedLoaded` | internal/engine/engine_impl.go:304-334 | Afterwards the branch is cached iff it has a state to load, with that state, and no answer of any accessor has changed. |
| `StateCore.Cache.ViewIsRecords` | internal/engine/engine_impl.go:282-334 | However it was loaded, the cache answers from the records: a branch has a state iff it exists and its record can be read and names a parent other than itself, trunk being left out of a full load, and that state has the record's fields. |
| `StateCore.Cache.GetParent` | internal/engine/engine_reader.go:105-115 | The parent the branch's record names, whatever was cached before, and none for a branch without a state; no answer changes. |
| `StateCore.Cache.IsTracked` | internal/engine/engine_branch_status.go:23-29 | True iff the branch has a state and its record names a non-empty parent. |
| `StateCore.Cache.GetLockReason` | internal/engine/engine_branch_status.go:78-86 | The lock of the branch's record, and none for a branch without a state. |
| `StateCore.Cache.GetBranchType` | internal/engine/engine_branch_status.go:102-110 | The type of the branch's record, and none for a branch without a state. |
| `StateCore.Cache.GetScope` | internal/engine/engine_branch_status.go:32-64 | Ends on every parent map, cyclic ones too, with the nearest explicit scope on the chain below trunk, "" for "none" and "clear", which break inheritance, and "" when there is none; the branch's own scope comes first. |
| `StateCore.NoScopeOnCycle` | internal/engine/engine_branch_status.go:32-64 | A walk that has come back to a branch without meeting a scope never meets one. |
| `Landed.FindNearestValidAncestor` | internal/engine/engine_internal.go:208-229 | The walk returns the first ancestor not to be skipped, with all between skipped, and trunk if the chain runs out. |
| `Landed.AcyclicWalkEnds` | internal/engine/engine_internal.go:149-229 | On every acyclic parent map the walk ends; every branch it passed over is gone or landed and is neither trunk nor a worktree anchor; its answer is an anchor or a branch that exists and has not landed, or trunk, and trunk only if the chain reached trunk or ran out, for instance at a parent that no longer exists. |
| `Landed.ForestWalkEnds` | internal/engine/engine_internal.go:208-229 | On a forest the answer is the nearest ancestor not to be skipped: trunk or a tracked branch. |
| `TreeView.VisibleTreeParent` | internal/actions/tree.go:291-297 | The first ancestor that is not a worktree anchor, or nothing for an untracked branch. |
| `TreeView.VisibleTreeChildren` | internal/actions/tree.go:299-313 | Lists without repeats exactly the branches that are not anchors and have only anchors between themselves and the branch, in tree order: of any two, the one at or below the sibling that comes first by name is listed first. |
| `TreeView.BeforeAsymmetric` | internal/actions/tree.go:299-313 | In a forest tree order is strict: of two branches at most one comes before the other. |
| `TreeView.TreeOrderUnique` | internal/actions/tree.go:299-313 | So the branches shown under a branch have one list in tree order, and that is the list. |
| `TreeView.ParentAndChildrenAgree` | internal/actions/tree.go:291-313 | A branch that is not an anchor is shown under another iff that one is its visible parent, so the JSON parents and children are inverse relations. |
| `Split.MakeParts` | internal/engine/engine_split.go:69-128 | Parts are made oldest first, each offset resolved from the ref of the branch as it then stands; the loop fails if an offset does not resolve, or a ref or record cannot be written, and leaves exactly the first parts tracked. |
| `Split.ApplySplitToCommits` | internal/engine/engine_split.go:12-165 | A split with unequal lists, of an untracked branch, or refused by the sibling guard changes nothing, and one with an offset that does not resolve fails; success makes exactly the parts; a failure, of a write or the final checkout too, leaves the first parts tracked. |
| `Split.PartsMade` | internal/engine/engine_split.go:69-128 | A split at commits that exist, in a chain or side by side, makes every part unless a write fails: each at its commit, hanging from its predecessor and starting at its predecessor's tip in a chain, from the old parent and at the old divergence point side by side; no other branch changes, the old children included. |
| `SplitOwnership.CutsRise` | internal/engine/engine_split.go:69-70 | The parts' tips, resolved along first parents, are each a proper ancestor of the next. |
| `SplitOwnership.SplitPartitions` | internal/engine/engine_split.go:52-148 | On any commit graph, merges included: no two parts of a chain own a commit in common, every part but perhaps the oldest owns one, the oldest does iff its tip is no ancestor of the old divergence point, and no other branch changes. A commit is owned by some part iff the branch owned it, for all commits, iff what the divergence point and the tip have in common is below the oldest part's tip; for a branch that descends from its divergence point, iff that point is an ancestor of the oldest part's tip. |
| `SplitOwnership.SplitKeepsAnchored` | internal/engine/engine_split.go:69-128 | A split in a chain or side by side keeps every stored revision an ancestor of its branch's tip, those of the new parts included, iff the divergence point is an ancestor of the oldest part's tip. |
| `SplitOwnership.MergedSplitOverruns` | internal/actions/split/split_commit.go:107-117 | A branch that holds a merge owns four commits; splitting it at the position of the oldest in that list cuts below its divergence point, and its parts own a commit that was not the branch's. |
| `SplitListing.PartsList` | internal/engine/engine_split.go:69-128 | On a linear history, joined oldest first, the commits of the first parts are the commits between the old divergence point and the last cut. |
| `SplitListing.ListingPartitions` | internal/engine/engine_split.go:52-148 | On a linear history the parts' commits, joined oldest to newest, are the original list; none is empty and none shares a commit. |
| `SplitShape.SplitIs` | internal/engine/engine_split.go:69-128 | A split changes the parents of its parts and of no other branch. |
| `SplitShape.SplitKeepsForest` | internal/engine/engine_split.go:69-128 | A split into new branches, in a chain or side by side, leaves a forest. |
| `SplitShape.ChainKeepsLinear` | internal/engine/engine_split.go:69-128 | A chain split of a branch in a linear forest leaves a linear forest, which is why it needs no guard. |
| `SplitShape.SiblingGuardIsExact` | internal/engine/branch_tracking.go:560-582 | The guard of a sibling split accepts exactly the splits that leave a linear forest. |
| `RateLimit.RateLimiter.constructor` | internal/api/ratelimit.go:50-65 | Starts with no buckets; a rate or burst of zero takes the default. |
| `RateLimit.RateLimiter.Sweep` | internal/api/ratelimit.go:96-106 | At most once a minute, evicts exactly the buckets idle for longer than the idle time. |
| `RateLimit.RateLimiter.Allow` | internal/api/ratelimit.go:69-92 | A client without a bucket, or whose bucket is swept now, is admitted and left a burst less one token. Any other holds what it held and the rate times the time since, at most a burst; it is admitted iff that is at least one token, and then left one less. Other clients' buckets change only by the sweep. |
| `RateLimit.TokensInRange` | internal/api/ratelimit.go:69-106 | On an ordered run, refills and evictions included, every bucket kept holds between zero tokens and the burst. |
| `RateLimit.RunMatches` | internal/api/ratelimit.go:69-106 | When burst ≤ rate × idle time, the limiter simulates one that never evicts and looks at each client's requests alone, and so decides every request alike. |
| `RateLimit.OwnWindow` | internal/api/ratelimit.go:69-92 | Without eviction, requests admitted in a window are paid for by the first fill and the time since the window began. |
| `RateLimit.TwoBursts` | internal/api/ratelimit.go:69-106 | When burst > rate × idle time, two bursts apart by more than the idle time but less than a refill exceed the window bound. |
| `RateLimit.EvictionInvisibleIff` | internal/api/ratelimit.go:69-106 | Eviction is invisible on every ordered run iff burst ≤ rate × idle time. |
| `RateLimit.WindowBoundIff` | internal/api/ratelimit.go:69-106 | On every ordered run no client is admitted more than burst + rate × T times in any window of length T, iff burst ≤ rate × idle time. |
| `RateLimit.DeniedIsExhausted` | internal/api/ratelimit.go:69-106 | On every ordered run, evictions included, a denied request would have taken some window ending with it over burst + rate × its length. |
| `RateLimit.DeniedIff` | internal/api/ratelimit.go:69-106 | When burst ≤ rate × idle time, a request is denied iff admitting it would: the limiter is the most permissive one that keeps every window within the bound. |
| `RateLimit.SpacedIsAdmitted` | internal/api/ratelimit.go:69-92 | A request that comes 1/rate or more after every earlier one of its client is admitted. |
| `RateLimit.DefaultsRefillInTime` | internal/api/ratelimit.go:15-23 | The default burst is at most the default rate times the idle time. |

## Left out

- Carrying out a cleanup where branches hang below an untracked branch other than trunk or from a cycle: the traversal never
  gets there (`Seen`), and what is left is stated for forests whose chains end at trunk or at a parent that does not exist.
- Records that name the empty string as parent, in planning and cleanup.
- Which reason a ghost is planned for: its metadata is read for a merged pull request, and the answer is an input.
- Linear shape after a cleanup with vetoes: moves are judged against the whole plan, so a vetoed branch may leave a fork;
  linearity is claimed only when nothing is vetoed and there is no ghost.
- Which branches a cleanup picks (`identifyBranchesToDelete`, `evaluateDeletionStatus`): the statuses are an input.
- The veto is a function of the branch, and the questions put to it are recorded for the specification only: worktree removal,
  its messages and the lists of skipped branches are not modelled.
- Aliasing of the planner's entries: a plan entry and its blocker set are values in the plan's map, replaced rather than
  edited.
- The local metadata tier: the frozen flag and the entries it creates for untracked branches.
- Stack IDs and the failures of copying them, PR records, remote metadata, the merged-downstack list, and the other fields
  of a record the modelled operations carry along.
- Metadata written outside the retry loops (tracking, rename, split): unconditional writes and deletes are not among the
  concurrent writers.
- Backoff times, reflog messages and the error-string test that tells a conflict from another failure: the kinds of outcome
  are given.
- The rebuild from disk that ends a deletion, and mutexes.
- Git failures inside the landed test read as "not landed", as in the code; the evidence itself (per-commit and aggregate
  patch matching) is an oracle.
- Rebasing and restacking: only where branches hang and which commits they own is modelled.
- The list of own commits a split's offsets are picked from, beyond the example of a merge: the offsets are an input.
- Splits in which the original name is not the newest part: later offsets would be resolved from a ref that has moved.
- Splits of a branch with a parent but no stored revision: the code dereferences a missing value there.
- The in-memory edits of a split: the old parent's children list goes on naming the branch until the next rebuild, and the
  parts' records start without lock, scope and type.
- `SortBranchesTopologically`, `BranchesDepthFirst`, `BranchNames`, batch readers of statistics: easier members.
- Floating-point rounding in the limiter: tokens and times are real numbers, and the burst of the two exact characterisations
  is a whole number, as the configuration's is.
- StateCore.Cache.RebuildBranches: asks that the named branches exist, and that the records of the others read as they did.
