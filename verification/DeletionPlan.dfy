/** Planning a cleanup: which branches go, what blocks each of them, and where the survivors hang afterwards. */
module DeletionPlan {
  import opened Wrappers
  import opened Names
  import opened Forest
  import opened Ancestors
  import opened StackGraph

  datatype ReasonKind = NoReason | ClosedPR | MergedPR | MergedIntoTrunk | EmptyWithPR | GhostBranch

  datatype DeletionStatus = DeletionStatus(reason: string, kind: ReasonKind)

  type Statuses = map<string, DeletionStatus>

  datatype BranchDeletionInfo = BranchDeletionInfo(reason: string, reasonKind: ReasonKind, blockers: set<string>)

  datatype PlannedMove = PlannedMove(branchName: string, newParentName: string, preserveDivergence: bool)

  type Entries = map<string, BranchDeletionInfo>

  /** Reasons for which a child keeps its divergence point: its old parent's changes are already below it. */
  predicate Preserves(kind: ReasonKind) {
    kind in {MergedPR, MergedIntoTrunk, EmptyWithPR}
  }

  function Unblocked(entries: Entries, branch: string, blocker: string): Entries {
    if branch in entries then entries[branch := entries[branch].(blockers := entries[branch].blockers - {blocker})]
      else entries
  }

  class DeletionPlan {
    var branches: Entries

    constructor ()
      ensures branches == map[]
    {
      branches := map[];
    }

    method Add(name: string, status: DeletionStatus, blockers: set<string>)
      modifies this
      ensures branches == old(branches)[name := BranchDeletionInfo(status.reason, status.kind, blockers)]
    {
      branches := branches[name := BranchDeletionInfo(status.reason, status.kind, blockers)];
    }

    method RemoveBlocker(branchName: string, blockerName: string)
      modifies this
      ensures branches == Unblocked(old(branches), branchName, blockerName)
    {
      if branchName in branches {
        var info := branches[branchName];
        branches := branches[branchName := info.(blockers := info.blockers - {blockerName})];
      }
    }
  }

  // ---------- What a plan should be ----------

  /** Each branch to delete, blocked by exactly its children that are to be deleted too; nothing blocks an untracked
      one, a ghost included. */
  ghost function PlanFor(pm: ParentMap, statuses: Statuses): Entries {
    map b | b in statuses ::
      BranchDeletionInfo(statuses[b].reason, statuses[b].kind,
        if b in pm then PlannedChildren(pm, statuses.Keys, b) else {})
  }

  /** The statuses once every ghost is to be deleted too. */
  function WithGhosts(statuses: Statuses, ghosts: set<string>, ghostStatus: string -> DeletionStatus): Statuses {
    statuses + map g | g in ghosts && g !in statuses :: ghostStatus(g)
  }

  ghost function PlannedChildren(pm: ParentMap, planned: set<string>, b: string): set<string> {
    set c | c in pm && c in planned && pm[c] == b
  }

  ghost predicate IsMoved(moves: seq<PlannedMove>, b: string) {
    exists m :: m in moves && m.branchName == b
  }

  /** m takes a survivor of the tracked forest to its nearest surviving ancestor. */
  ghost predicate GoodMove(pm: ParentMap, statuses: Statuses, m: PlannedMove) {
    m.branchName in pm && m.branchName !in statuses && pm[m.branchName] in statuses &&
    IsNearest(pm, statuses.Keys, pm[m.branchName], m.newParentName) &&
    m.preserveDivergence == Preserves(statuses[pm[m.branchName]].kind)
  }

  ghost predicate NoRepeats(moves: seq<PlannedMove>) {
    forall i, j :: 0 <= i < j < |moves| ==> moves[i].branchName != moves[j].branchName
  }

  /** Every survivor of the set `among` whose parent goes has one move, and nothing else has any. */
  ghost predicate MovesFor(pm: ParentMap, statuses: Statuses, among: set<string>, moves: seq<PlannedMove>) {
    NoRepeats(moves) &&
    (forall m :: m in moves ==> GoodMove(pm, statuses, m) && m.branchName in among) &&
    (forall b :: b in among && b in pm && b !in statuses && pm[b] in statuses ==> IsMoved(moves, b))
  }

  lemma WithGhostsTwice(statuses: Statuses, some: set<string>, more: set<string>, ghostStatus: string -> DeletionStatus)
    ensures WithGhosts(WithGhosts(statuses, some, ghostStatus), more, ghostStatus) ==
      WithGhosts(statuses, some + more, ghostStatus)
  {
  }

  // ---------- The walk over the forest ----------

  /** The tracked branches whose parent has been visited are visited or waiting. */
  ghost predicate Frontier(pm: ParentMap, trunk: string, visited: set<string>, todo: seq<string>) {
    (forall b :: b in visited || b in todo ==> b in pm && (pm[b] == trunk || pm[b] in visited)) &&
    (forall b :: b in pm && (pm[b] == trunk || pm[b] in visited) ==> b in visited || b in todo)
  }

  /** The plan part-way: visited branches are in, and a visited survivor blocks its parent no more. */
  ghost predicate PartialPlan(pm: ParentMap, statuses: Statuses, visited: set<string>, entries: Entries) {
    entries.Keys == visited * statuses.Keys &&
    forall b :: b in entries ==>
      entries[b] == BranchDeletionInfo(statuses[b].reason, statuses[b].kind, Blocking(pm, statuses, visited, b))
  }

  ghost function Blocking(pm: ParentMap, statuses: Statuses, visited: set<string>, b: string): set<string> {
    set c | c in pm && pm[c] == b && (c !in visited || c in statuses)
  }

  lemma {:induction false} AllVisited(pm: ParentMap, trunk: string, rank: Rank, visited: set<string>, b: string)
    requires Ranked(pm, trunk, rank) && Frontier(pm, trunk, visited, []) && b in pm
    ensures b in visited
    decreases rank[b]
  {
    if pm[b] != trunk { AllVisited(pm, trunk, rank, visited, pm[b]); }
  }

  lemma FrontierStep(pm: ParentMap, trunk: string, visited: set<string>, todo: seq<string>, b: string,
      kids: seq<string>)
    requires trunk !in pm && Frontier(pm, trunk, visited, todo + [b]) && b !in visited
    requires forall c :: c in kids <==> c in pm && pm[c] == b
    ensures Frontier(pm, trunk, visited + {b}, todo + kids)
  {
    forall c ensures c in todo + kids <==> c in todo || c in kids {}
    forall c ensures c in todo + [b] <==> c in todo || c == b {}
  }

  lemma FrontierSkip(pm: ParentMap, trunk: string, visited: set<string>, todo: seq<string>, b: string)
    requires Frontier(pm, trunk, visited, todo + [b]) && b in visited
    ensures Frontier(pm, trunk, visited, todo)
  {
    forall c ensures c in todo + [b] <==> c in todo || c == b {}
  }

  /** A visited branch's parent walk meets only visited branches, so the plan so far decides it as the whole will. */
  lemma PartialNearest(pm: ParentMap, trunk: string, statuses: Statuses, visited: set<string>, b: string, r: string)
    requires WellFormed(pm, trunk) && trunk !in statuses
    requires forall c :: c in visited ==> c in pm && (pm[c] == trunk || pm[c] in visited)
    requires b == trunk || b in visited
    ensures IsNearest(pm, visited * statuses.Keys, b, r) <==> IsNearest(pm, statuses.Keys, b, r)
    ensures Escapes(pm, visited * statuses.Keys, b)
  {
    DepthsRank(pm, trunk);
    NearestAgrees(pm, trunk, Depths(pm, trunk), visited * statuses.Keys, statuses.Keys, visited, b, r);
    var r' := ForestNearest(pm, trunk, Depths(pm, trunk), visited * statuses.Keys, b);
  }

  method PlanReparentIfNecessary(pm: ParentMap, trunk: string, b: string, plan: DeletionPlan)
    returns (move: Option<PlannedMove>)
    requires b in pm && plan.branches.Keys <= pm.Keys && Escapes(pm, plan.branches.Keys, pm[b])
    modifies plan
    ensures pm[b] !in old(plan.branches) ==> move.None? && plan.branches == old(plan.branches)
    ensures pm[b] in old(plan.branches) ==> move.Some? && plan.branches == Unblocked(old(plan.branches), pm[b], b)
    ensures pm[b] in old(plan.branches) ==>
      move.value.branchName == b && IsNearest(pm, old(plan.branches).Keys, pm[b], move.value.newParentName)
    ensures pm[b] in old(plan.branches) ==>
      move.value.preserveDivergence == Preserves(old(plan.branches)[pm[b]].reasonKind)
  {
    var parentName := ParentOrTrunk(pm, trunk, b);
    assert plan.branches.Keys * pm.Keys == plan.branches.Keys;
    var newParentName := FindNearestNonExcludedAncestor(pm, trunk, parentName, plan.branches.Keys);
    WalksAgree(pm, trunk, plan.branches.Keys, parentName, newParentName);
    NearestStep(pm, plan.branches.Keys, parentName, newParentName);
    if newParentName != parentName {
      var preserve := ShouldPreserveDivergenceOnReparent(plan, parentName);
      plan.RemoveBlocker(parentName, b);
      return Some(PlannedMove(b, newParentName, preserve));
    }
    assert parentName !in plan.branches;
    return None;
  }

  method ShouldPreserveDivergenceOnReparent(plan: DeletionPlan, oldParentName: string) returns (r: bool)
    ensures r <==> oldParentName in plan.branches && Preserves(plan.branches[oldParentName].reasonKind)
    ensures oldParentName in plan.branches ==>
      var kind := plan.branches[oldParentName].reasonKind;
      r == (kind.MergedPR? || kind.MergedIntoTrunk? || kind.EmptyWithPR?)
  {
    if oldParentName !in plan.branches { return false; }
    match plan.branches[oldParentName].reasonKind
    case MergedPR | MergedIntoTrunk | EmptyWithPR => return true;
    case _ => return false;
  }

  // ---------- Building the plan ----------

  /** Visiting a branch to be deleted adds it, blocked by all its children. */
  lemma PlanGrows(pm: ParentMap, statuses: Statuses, visited: set<string>, entries: Entries, b: string,
      kids: set<string>)
    requires PartialPlan(pm, statuses, visited, entries) && b !in visited && b in statuses && b in pm && pm[b] != b
    requires forall c :: c in pm && pm[c] == b ==> c !in visited
    requires kids == set c | c in pm && pm[c] == b
    ensures PartialPlan(pm, statuses, visited + {b},
      entries[b := BranchDeletionInfo(statuses[b].reason, statuses[b].kind, kids)])
  {
    var entries' := entries[b := BranchDeletionInfo(statuses[b].reason, statuses[b].kind, kids)];
    forall p | p in entries' ensures entries'[p].blockers == Blocking(pm, statuses, visited + {b}, p) {
      if p == b { assert kids == Blocking(pm, statuses, visited + {b}, b); }
    }
  }

  /** Visiting a survivor unblocks its parent. */
  lemma PlanUnblocks(pm: ParentMap, statuses: Statuses, visited: set<string>, entries: Entries, b: string)
    requires PartialPlan(pm, statuses, visited, entries) && b !in visited && b !in statuses && b in pm
    ensures PartialPlan(pm, statuses, visited + {b}, Unblocked(entries, pm[b], b))
  {
    var entries' := Unblocked(entries, pm[b], b);
    forall p | p in entries' ensures entries'[p].blockers == Blocking(pm, statuses, visited + {b}, p) {}
  }

  lemma MovesAppend(pm: ParentMap, statuses: Statuses, visited: set<string>, moves: seq<PlannedMove>, m: PlannedMove)
    requires MovesFor(pm, statuses, visited, moves) && m.branchName !in visited && GoodMove(pm, statuses, m)
    ensures MovesFor(pm, statuses, visited + {m.branchName}, moves + [m])
  {
    forall c ensures IsMoved(moves + [m], c) <==> IsMoved(moves, c) || c == m.branchName {
      assert m in moves + [m];
    }
    assert forall i :: 0 <= i < |moves| ==> moves[i] in moves;
  }

  lemma MovesSkip(pm: ParentMap, statuses: Statuses, visited: set<string>, moves: seq<PlannedMove>, b: string)
    requires MovesFor(pm, statuses, visited, moves) && (b in statuses || (b in pm && pm[b] !in statuses))
    ensures MovesFor(pm, statuses, visited + {b}, moves)
  {
  }

  lemma NoSelfParent(pm: ParentMap, trunk: string)
    requires WellFormed(pm, trunk)
    ensures forall b :: b in pm ==> pm[b] != b
  {
    DepthsRank(pm, trunk);
  }

  /** When nothing waits, every tracked branch has been visited. */
  lemma WalkComplete(pm: ParentMap, trunk: string, visited: set<string>)
    requires WellFormed(pm, trunk) && Frontier(pm, trunk, visited, [])
    ensures visited == pm.Keys
  {
    DepthsRank(pm, trunk);
    forall b | b in pm ensures b in visited { AllVisited(pm, trunk, Depths(pm, trunk), visited, b); }
  }

  /** What is planned for: a forest once the ghosts are adopted, and statuses that spare trunk. */
  ghost predicate Planning(pm: ParentMap, ghosts: set<string>, trunk: string, statuses: Statuses) {
    WellFormed(Adopted(pm, ghosts, trunk), trunk) && ghosts !! pm.Keys && trunk !in statuses
  }

  /** Planned branches that exist lead a walk alike up the recorded parents and in the forest with ghosts adopted. */
  lemma AdoptedNearest(pm: ParentMap, ghosts: set<string>, trunk: string, ex: set<string>, b: string)
    requires ghosts !! ex
    ensures Escapes(pm, ex, b) <==> Escapes(Adopted(pm, ghosts, trunk), ex, b)
    ensures forall r :: IsNearest(pm, ex, b, r) <==> IsNearest(Adopted(pm, ghosts, trunk), ex, b, r)
  {
    NearestFrame(pm, Adopted(pm, ghosts, trunk), ex, b);
  }

  /** What a traversal of pm gets to see, seen, is a forest once the ghosts are adopted. */
  ghost predicate Traversal(pm: ParentMap, seen: ParentMap, ghosts: set<string>, trunk: string, statuses: Statuses) {
    Planning(seen, ghosts, trunk, statuses) && ghosts !! pm.Keys &&
    (forall b :: b in seen ==> b in pm && pm[b] == seen[b]) &&
    forall b :: b in pm && pm[b] in seen.Keys + ghosts + {trunk} ==> b in seen
  }

  /** Adds a branch to the plan, or moves it off a parent that is in it. */
  method VisitBranch(pm: ParentMap, trunk: string, statuses: Statuses, plan: DeletionPlan, moves: seq<PlannedMove>,
      b: string, children: seq<string>, ghost seen: ParentMap, ghost ghosts: set<string>, ghost visited: set<string>)
    returns (moves': seq<PlannedMove>)
    requires Traversal(pm, seen, ghosts, trunk, statuses) && b in seen && b !in visited
    requires forall c :: c in visited || c == b ==>
      c in Adopted(seen, ghosts, trunk) && Adopted(seen, ghosts, trunk)[c] in visited + {trunk}
    requires forall c :: c in children <==> c in pm && pm[c] == b
    requires PartialPlan(Adopted(seen, ghosts, trunk), statuses - ghosts, visited, plan.branches)
    requires MovesFor(Adopted(seen, ghosts, trunk), statuses - ghosts, visited, moves)
    modifies plan
    ensures PartialPlan(Adopted(seen, ghosts, trunk), statuses - ghosts, visited + {b}, plan.branches)
    ensures MovesFor(Adopted(seen, ghosts, trunk), statuses - ghosts, visited + {b}, moves')
  {
    ghost var up, chosen := Adopted(seen, ghosts, trunk), statuses - ghosts;
    forall c ensures c in children <==> c in up && up[c] == b {}
    moves' := moves;
    if b in statuses {
      NoSelfParent(up, trunk);
      PlanGrows(up, chosen, visited, plan.branches, b, Elems(children));
      MovesSkip(up, chosen, visited, moves, b);
      plan.Add(b, statuses[b], Elems(children));
    } else {
      PartialNearest(up, trunk, chosen, visited, up[b], up[b]);
      NearestFrame(pm, up, plan.branches.Keys, pm[b]);
      PlanUnblocks(up, chosen, visited, plan.branches, b);
      var move := PlanReparentIfNecessary(pm, trunk, b, plan);
      if move.Some? {
        PartialNearest(up, trunk, chosen, visited, up[b], move.value.newParentName);
        assert GoodMove(up, chosen, move.value);
        MovesAppend(up, chosen, visited, moves, move.value);
        moves' := moves + [move.value];
      } else {
        MovesSkip(up, chosen, visited, moves, b);
      }
    }
  }

  /** A tracked branch whose parent is a ghost. */
  ghost predicate IsStrandedRoot(branches: seq<string>, pm: ParentMap, b: string) {
    b in pm && pm[b] in Ghosts(branches, pm)
  }

  /** Queues the branches that ghosts strand, and marks every ghost for deletion. */
  method AppendStrandedRoots(branches: seq<string>, pm: ParentMap, trunk: string, statuses: Statuses,
      ghostStatus: string -> DeletionStatus, queue: seq<string>)
    returns (statuses': Statuses, queue': seq<string>)
    requires Tracked(branches, pm, trunk)
    ensures statuses' == WithGhosts(statuses, Ghosts(branches, pm), ghostStatus)
    ensures forall b :: b in queue' <==> b in queue || IsStrandedRoot(branches, pm, b)
  {
    statuses', queue' := statuses, queue;
    ghost var met: set<string> := {};
    for i := 0 to |branches|
      invariant met <= Ghosts(branches, pm) && statuses' == WithGhosts(statuses, met, ghostStatus)
      invariant forall b :: b in queue' <==> b in queue || (b in branches[..i] && IsStrandedRoot(branches, pm, b))
      invariant forall b :: b in branches[..i] && IsStrandedRoot(branches, pm, b) ==> pm[b] in met
    {
      var root := branches[i];
      assert branches[..i + 1] == branches[..i] + [root];
      if root == trunk || root !in pm || pm[root] in branches { continue; }
      ghost var more;
      statuses', more := MarkGhosts(branches, pm, trunk, statuses', ghostStatus, pm[root]);
      WithGhostsTwice(statuses, met, more, ghostStatus);
      queue' := queue' + [root];
      met := met + more;
    }
    assert branches[..|branches|] == branches;
    AllGhostsMet(branches, pm, trunk, met);
  }

  lemma AllGhostsMet(branches: seq<string>, pm: ParentMap, trunk: string, met: set<string>)
    requires Tracked(branches, pm, trunk) && met <= Ghosts(branches, pm)
    requires forall b :: b in branches && IsStrandedRoot(branches, pm, b) ==> pm[b] in met
    ensures met == Ghosts(branches, pm)
  {
    forall g | g in Ghosts(branches, pm) ensures g in met {
      var b := GhostHasChild(branches, pm, g);
      assert IsStrandedRoot(branches, pm, b);
    }
  }

  /** Marks the ghosts on the chain from start up, as far as the first that is marked already. */
  method MarkGhosts(branches: seq<string>, pm: ParentMap, trunk: string, statuses: Statuses,
      ghostStatus: string -> DeletionStatus, start: string)
    returns (statuses': Statuses, ghost met: set<string>)
    requires start in Ghosts(branches, pm) && start !in {"", trunk}
    ensures statuses' == WithGhosts(statuses, met, ghostStatus) && start in met && met <= Ghosts(branches, pm)
  {
    statuses', met := statuses, {};
    var ghostName := start;
    while ghostName != "" && ghostName != trunk && ghostName !in branches
      invariant statuses' == WithGhosts(statuses, met, ghostStatus) && met <= Ghosts(branches, pm)
      invariant ghostName !in branches ==> ghostName in Ghosts(branches, pm)
      invariant if met == {} then ghostName == start else start in met
      decreases Ghosts(branches, pm) - met
    {
      ghost var last := met;
      met := met + {ghostName};
      if ghostName in statuses' {
        WithGhostsTwice(statuses, last, {ghostName}, ghostStatus);
        break;
      }
      WithGhostsTwice(statuses, last, {ghostName}, ghostStatus);
      statuses' := statuses'[ghostName := ghostStatus(ghostName)];
      if ghostName !in pm { break; }
      ghostName := pm[ghostName];
    }
  }

  /** Before anything is visited, the children of trunk and of ghosts wait. */
  lemma StartsAtRoots(pm: ParentMap, ghosts: set<string>, trunk: string, statuses: Statuses, roots: seq<string>)
    requires Planning(pm, ghosts, trunk, statuses)
    requires forall b :: b in roots <==> b in pm && (pm[b] == trunk || pm[b] in ghosts)
    ensures var up, chosen := Adopted(pm, ghosts, trunk), statuses - ghosts;
      Frontier(up, trunk, ghosts, roots) && PartialPlan(up, chosen, ghosts, map[]) && MovesFor(up, chosen, ghosts, [])
  {
    var up := Adopted(pm, ghosts, trunk);
    forall b | b in ghosts || b in roots ensures b in up && (up[b] == trunk || up[b] in ghosts) {}
    forall b | b in up && (up[b] == trunk || up[b] in ghosts) ensures b in ghosts || b in roots {}
  }

  /** The plan part-way says of the tracked branches what the plan should. */
  lemma PlannedInForest(pm: ParentMap, ghosts: set<string>, trunk: string, statuses: Statuses,
      moves: seq<PlannedMove>, entries: Entries)
    requires Planning(pm, ghosts, trunk, statuses)
    requires var up := Adopted(pm, ghosts, trunk);
      PartialPlan(up, statuses - ghosts, up.Keys, entries) && MovesFor(up, statuses - ghosts, up.Keys, moves)
    ensures entries.Keys == statuses.Keys * pm.Keys &&
      forall b :: b in entries ==> entries[b] == PlanFor(pm, statuses)[b]
    ensures MovesFor(pm, statuses - ghosts, pm.Keys, moves)
  {
    var up, chosen := Adopted(pm, ghosts, trunk), statuses - ghosts;
    forall b | b in entries ensures entries[b] == PlanFor(pm, statuses)[b] {
      assert Blocking(up, chosen, up.Keys, b) == PlannedChildren(pm, statuses.Keys, b);
    }
    forall m | m in moves ensures GoodMove(pm, chosen, m) {
      AdoptedNearest(pm, ghosts, trunk, chosen.Keys, up[m.branchName]);
    }
  }

  /** Depth first from the children of trunk and of ghosts, over a stack of waiting branches. */
  method WalkForest(branches: seq<string>, pm: ParentMap, trunk: string, statuses: Statuses, plan: DeletionPlan,
      roots: seq<string>, ghost seen: ParentMap, ghost ghosts: set<string>)
    returns (moves: seq<PlannedMove>)
    requires Traversal(pm, seen, ghosts, trunk, statuses) && plan.branches == map[]
    requires forall b :: b in pm ==> b in branches && (pm[b] in branches || pm[b] in ghosts)
    requires forall b :: b in roots <==> b in pm && (pm[b] == trunk || pm[b] in ghosts)
    modifies plan
    ensures plan.branches.Keys == statuses.Keys * seen.Keys
    ensures forall b :: b in plan.branches ==> plan.branches[b] == PlanFor(seen, statuses)[b]
    ensures MovesFor(seen, statuses - ghosts, seen.Keys, moves)
  {
    ghost var up, chosen := Adopted(seen, ghosts, trunk), statuses - ghosts;
    moves := [];
    var visited: set<string>, todo := {}, roots;
    StartsAtRoots(seen, ghosts, trunk, statuses, roots);
    assert visited + ghosts == ghosts;

    while todo != []
      invariant visited !! ghosts && forall b :: b in todo ==> b in seen
      invariant Frontier(up, trunk, visited + ghosts, todo)
      invariant PartialPlan(up, chosen, visited + ghosts, plan.branches) &&
        MovesFor(up, chosen, visited + ghosts, moves)
      decreases seen.Keys - visited, |todo|
    {
      var rest, b := todo[..|todo| - 1], todo[|todo| - 1];
      assert todo == rest + [b];
      if b in visited {
        FrontierSkip(up, trunk, visited + ghosts, rest, b);
        todo := rest;
        continue;
      }
      var children := ChildBranches(branches, pm, b);
      ChildrenSeen(branches, pm, seen, ghosts, trunk, statuses, b, children);
      FrontierStep(up, trunk, visited + ghosts, rest, b, children);
      moves := VisitBranch(pm, trunk, statuses, plan, moves, b, children, seen, ghosts, visited + ghosts);
      assert visited + {b} + ghosts == visited + ghosts + {b};
      visited := visited + {b};
      todo := rest + children;
    }
    WalkComplete(up, trunk, visited + ghosts);
    PlannedInForest(seen, ghosts, trunk, statuses, moves, plan.branches);
  }

  /** The children of a branch that is seen are seen. */
  lemma ChildrenSeen(branches: seq<string>, pm: ParentMap, seen: ParentMap, ghosts: set<string>, trunk: string,
      statuses: Statuses, b: string, children: seq<string>)
    requires Traversal(pm, seen, ghosts, trunk, statuses) && b in seen
    requires forall c :: c in pm ==> c in branches && (pm[c] in branches || pm[c] in ghosts)
    requires forall c :: c in children <==> GraphParent(branches, pm, c) == b
    ensures forall c :: c in children <==> c in pm && pm[c] == b
    ensures forall c :: c in children <==> c in Adopted(seen, ghosts, trunk) && Adopted(seen, ghosts, trunk)[c] == b
    ensures forall c :: c in children ==> c in seen
  {
    assert b in pm && b != "" && b != trunk;
  }

  lemma RootsAre(branches: seq<string>, pm: ParentMap, trunk: string, children: seq<string>, roots: seq<string>)
    requires Tracked(branches, pm, trunk)
    requires forall b :: b in children <==> GraphParent(branches, pm, b) == trunk
    requires forall b :: b in roots <==> b in children || IsStrandedRoot(branches, pm, b)
    ensures forall b :: b in roots <==> b in pm && (pm[b] == trunk || pm[b] in Ghosts(branches, pm))
    ensures forall b :: b in pm ==> b in branches && (pm[b] in branches || pm[b] in Ghosts(branches, pm))
  {
  }

  lemma TraversalStarts(branches: seq<string>, pm: ParentMap, trunk: string, statuses: Statuses)
    requires Tracked(branches, pm, trunk) && trunk !in statuses
    ensures var ghosts := Ghosts(branches, pm);
      Traversal(pm, Seen(pm, ghosts, trunk), ghosts, trunk, statuses)
  {
    SeenIsForest(branches, pm, trunk);
    assert Ghosts(branches, pm) !! pm.Keys;
  }

  lemma GhostsTakenOut(statuses: Statuses, ghosts: set<string>, ghostStatus: string -> DeletionStatus)
    ensures WithGhosts(statuses, ghosts, ghostStatus) - ghosts == statuses - ghosts
    ensures WithGhosts(statuses, ghosts, ghostStatus).Keys == statuses.Keys + ghosts
  {
  }

  /** Plans what the traversal did not meet, ghosts included. */
  method AddOrphans(plan: DeletionPlan, statuses: Statuses, ghost seen: ParentMap)
    requires plan.branches.Keys == statuses.Keys * seen.Keys
    requires forall b :: b in plan.branches ==> plan.branches[b] == PlanFor(seen, statuses)[b]
    modifies plan
    ensures plan.branches == PlanFor(seen, statuses)
  {
    var orphans := statuses.Keys - plan.branches.Keys;
    while orphans != {}
      invariant orphans <= statuses.Keys - seen.Keys && plan.branches.Keys == statuses.Keys - orphans
      invariant forall b :: b in plan.branches ==> plan.branches[b] == PlanFor(seen, statuses)[b]
      decreases orphans
    {
      var b :| b in orphans;
      plan.Add(b, statuses[b], {});
      orphans := orphans - {b};
    }
  }

  /** Plans a cleanup. Survivors move to their nearest ancestor outside the plan although the plan is still growing when
      the move is chosen; a branch ends up blocked by exactly its children that go too. This holds of the branches the
      traversal gets to see, those whose chain comes to trunk or to a ghost. What it does not see, ghosts included, is
      planned last, unblocked, and no survivor moves off it; a survivor may move onto a ghost. */
  method BuildDeletionPlan(branches: seq<string>, pm: ParentMap, trunk: string, statuses: Statuses,
      ghostStatus: string -> DeletionStatus)
    returns (plan: DeletionPlan, moves: seq<PlannedMove>, all: Statuses)
    requires Tracked(branches, pm, trunk) && trunk !in statuses
    ensures var ghosts := Ghosts(branches, pm);
      var seen := Seen(pm, ghosts, trunk);
      all == WithGhosts(statuses, ghosts, ghostStatus) && plan.branches == PlanFor(seen, all) &&
      MovesFor(seen, statuses - ghosts, seen.Keys, moves)
    ensures fresh(plan)
  {
    plan := new DeletionPlan();
    ghost var ghosts := Ghosts(branches, pm);
    ghost var seen := Seen(pm, ghosts, trunk);
    var children := ChildBranches(branches, pm, trunk);
    var roots;
    all, roots := AppendStrandedRoots(branches, pm, trunk, statuses, ghostStatus, children);
    RootsAre(branches, pm, trunk, children, roots);
    GhostsTakenOut(statuses, ghosts, ghostStatus);
    TraversalStarts(branches, pm, trunk, all);
    moves := WalkForest(branches, pm, trunk, all, plan, roots, seen, ghosts);
    AddOrphans(plan, all, seen);
  }
}
