/** Cleanup from end to end: plan, reparent the survivors, select what may go, delete it in one batch. */
module CleanBranches {
  import opened Wrappers
  import opened Names
  import opened Forest
  import opened LinearShape
  import opened StackGraph
  import opened Divergence
  import opened Engine
  import opened DeletionPlan
  import opened DeletionSelect

  // ---------- After the reparent moves ----------

  /** Survivors hang from their nearest surviving ancestor; the planned branches are where they were. */
  ghost predicate Reparented(pm: ParentMap, planned: set<string>, pm': ParentMap) {
    pm'.Keys == pm.Keys &&
    forall b :: b in pm ==> if b in planned then pm'[b] == pm[b] else IsNearest(pm, planned, pm[b], pm'[b])
  }

  function UpdatesOf(moves: seq<PlannedMove>): (r: seq<ParentUpdate>)
    ensures |r| == |moves|
    ensures forall i :: 0 <= i < |r| ==>
      r[i] == ParentUpdate(moves[i].branchName, moves[i].newParentName,
        if moves[i].preserveDivergence then Preserve else Recompute)
  {
    seq(|moves|, i requires 0 <= i < |moves| =>
      ParentUpdate(moves[i].branchName, moves[i].newParentName,
        if moves[i].preserveDivergence then Preserve else Recompute))
  }

  lemma MovesMatch(moves: seq<PlannedMove>, m: Move)
    requires m in MovesOf(UpdatesOf(moves))
    ensures exists p :: p in moves && p.branchName == m.branch && p.newParentName == m.newParent
  {
    var i :| 0 <= i < |moves| && MovesOf(UpdatesOf(moves))[i] == m;
    assert moves[i] in moves;
  }

  lemma MoversMatch(moves: seq<PlannedMove>, b: string)
    ensures IsMover(MovesOf(UpdatesOf(moves)), b) <==> IsMoved(moves, b)
  {
    if IsMoved(moves, b) {
      var i :| 0 <= i < |moves| && moves[i].branchName == b;
      assert MovesOf(UpdatesOf(moves))[i] in MovesOf(UpdatesOf(moves));
    }
    if IsMover(MovesOf(UpdatesOf(moves)), b) {
      var m :| m in MovesOf(UpdatesOf(moves)) && m.branch == b;
      MovesMatch(moves, m);
    }
  }

  /** Planned moves are the moves a deletion of the whole plan would make. */
  lemma PlannedAreDeletionMoves(pm: ParentMap, statuses: Statuses, moves: seq<PlannedMove>)
    requires MovesFor(pm, statuses, pm.Keys, moves)
    ensures DeletionMoves(pm, statuses.Keys, MovesOf(UpdatesOf(moves)))
    ensures Reparented(pm, statuses.Keys, ApplyMoves(pm, MovesOf(UpdatesOf(moves))))
  {
    var ms := MovesOf(UpdatesOf(moves));
    forall m | m in ms ensures m.branch in pm && m.branch !in statuses.Keys && pm[m.branch] in statuses.Keys &&
      IsNearest(pm, statuses.Keys, pm[m.branch], m.newParent)
    {
      MovesMatch(moves, m);
    }
    forall b | b in pm && b !in statuses && pm[b] in statuses ensures IsMover(ms, b) { MoversMatch(moves, b); }
    var pm' := ApplyMoves(pm, ms);
    forall b ensures b in pm <==> b in pm'
      ensures b in pm ==> if b in statuses then pm'[b] == pm[b] else IsNearest(pm, statuses.Keys, pm[b], pm'[b])
    {
      ApplyMovesValue(pm, ms, b);
      if b in pm && !IsMover(ms, b) { NearestStep(pm, statuses.Keys, pm[b], pm[b]); }
    }
  }

  /** Reparenting the survivors keeps the forest, and moves no survivor under a planned branch. */
  lemma ReparentedForest(pm: ParentMap, trunk: string, planned: set<string>, pm': ParentMap)
    requires WellFormed(pm, trunk) && trunk !in planned && Reparented(pm, planned, pm')
    ensures WellFormed(pm', trunk)
    ensures forall b :: b in pm' && b !in planned ==> pm'[b] !in planned && (pm'[b] == trunk || pm'[b] in pm')
  {
    DepthsRank(pm, trunk);
    var rank := Depths(pm, trunk);
    forall b | b in pm'
      ensures pm'[b] == trunk || (pm'[b] in pm' && rank[pm'[b]] < rank[b])
      ensures b !in planned ==> pm'[b] !in planned
    {
      if b !in planned {
        var r := ForestNearest(pm, trunk, rank, planned, pm[b]);
        NearestUnique(pm, planned, pm[b], r, pm'[b]);
      }
    }
    assert Ranked(pm', trunk, rank);
    RankedWellFormed(pm', trunk, rank);
  }

  /** Each branch is where it was or at its nearest ancestor outside the plan. */
  ghost predicate PartReparented(pm: ParentMap, planned: set<string>, pm': ParentMap) {
    pm'.Keys == pm.Keys && forall b :: b in pm' ==> pm'[b] == pm[b] || IsNearest(pm, planned, pm[b], pm'[b])
  }

  lemma PartReparentedForest(pm: ParentMap, trunk: string, planned: set<string>, pm': ParentMap)
    requires WellFormed(pm, trunk) && trunk !in planned && PartReparented(pm, planned, pm')
    ensures WellFormed(pm', trunk)
  {
    DepthsRank(pm, trunk);
    var rank := Depths(pm, trunk);
    forall b | b in pm' ensures pm'[b] == trunk || (pm'[b] in pm' && rank[pm'[b]] < rank[b]) {
      if pm'[b] != pm[b] {
        var r := ForestNearest(pm, trunk, rank, planned, pm[b]);
        NearestUnique(pm, planned, pm[b], r, pm'[b]);
      }
    }
    assert Ranked(pm', trunk, rank);
    RankedWellFormed(pm', trunk, rank);
  }

  // ---------- A cleanup of a forest that may hold ghosts ----------

  /** The forest a cleanup starts from, its ghosts, and all that is planned, ghosts included. */
  datatype Job = Job(trunk: string, pm: ParentMap, ghosts: set<string>, statuses: Statuses) {
    ghost predicate Valid() {
      Planning(pm, ghosts, trunk, statuses) && ghosts <= statuses.Keys && "" !in statuses
    }

    /** What is planned of the branches that exist. */
    function Planned(): Statuses {
      statuses - ghosts
    }

    /** The forest in which the ghosts are adopted. */
    function Up(): ParentMap {
      Adopted(pm, ghosts, trunk)
    }

    /** What is planned as a forest of its own. No ghost is anyone's parent in it: nothing blocks a ghost. */
    function Chosen(): ParentMap {
      map b | b in statuses :: if b in pm && pm[b] in pm then pm[b] else trunk
    }
  }

  /** Reparenting the recorded parents is reparenting the forest in which the ghosts are adopted. */
  lemma AdoptedReparented(job: Job, pm': ParentMap)
    requires job.Valid()
    ensures Reparented(job.pm, job.Planned().Keys, pm') ==>
      Reparented(job.Up(), job.Planned().Keys, Adopted(pm', job.ghosts, job.trunk))
    ensures PartReparented(job.pm, job.Planned().Keys, pm') ==>
      PartReparented(job.Up(), job.Planned().Keys, Adopted(pm', job.ghosts, job.trunk))
  {
    var up, ex := job.Up(), job.Planned().Keys;
    NearestStep(up, ex, job.trunk, job.trunk);
    forall b | b in job.pm ensures forall r :: IsNearest(job.pm, ex, job.pm[b], r) <==> IsNearest(up, ex, up[b], r) {
      AdoptedNearest(job.pm, job.ghosts, job.trunk, ex, job.pm[b]);
    }
  }

  /** Parents that fall along a rank, or are ghosts, form a grounded forest. */
  lemma Regrounded(branches: seq<string>, pm: ParentMap, trunk: string, ghosts: set<string>, rank: Rank)
    requires trunk in branches && trunk !in pm && "" !in branches && "" !in ghosts && pm.Keys <= rank.Keys
    requires (forall b :: b in pm ==> b in branches) && forall g :: g in ghosts ==> g !in branches
    requires forall b :: b in pm ==> pm[b] == trunk || pm[b] in ghosts || (pm[b] in pm && rank[pm[b]] < rank[b])
    ensures Grounded(branches, pm, trunk) && Ghosts(branches, pm) <= ghosts
  {
    var met := Ghosts(branches, pm);
    forall g | g in met ensures g in ghosts {
      var b := GhostHasChild(branches, pm, g);
    }
    var up, rank' := Adopted(pm, met, trunk), map b | b in pm.Keys + met :: if b in pm then rank[b] + 1 else 0;
    forall b | b in up ensures up[b] == trunk || (up[b] in up && rank'[up[b]] < rank'[b]) {
      if b !in met && up[b] !in {trunk} + pm.Keys { assert pm[b] in met; }
    }
    assert Ranked(up, trunk, rank');
    RankedWellFormed(up, trunk, rank');
  }

  /** The branches a job is about exist, and its ghosts do not. */
  ghost predicate Standing(branches: seq<string>, job: Job) {
    job.trunk in branches && "" !in branches && (forall b :: b in job.pm ==> b in branches) &&
    forall g :: g in job.ghosts ==> g !in branches
  }

  /** With the survivors reparented, wholly or in part, the forest is grounded, and has no new ghost. */
  lemma StaysGrounded(branches: seq<string>, job: Job, pm': ParentMap)
    requires job.Valid() && Standing(branches, job) && PartReparented(job.pm, job.Planned().Keys, pm')
    ensures Grounded(branches, pm', job.trunk) && Ghosts(branches, pm') <= job.ghosts
  {
    var up' := Adopted(pm', job.ghosts, job.trunk);
    AdoptedReparented(job, pm');
    PartReparentedForest(job.Up(), job.trunk, job.Planned().Keys, up');
    DepthsRank(up', job.trunk);
    forall b | b in pm'
      ensures pm'[b] == job.trunk || pm'[b] in job.ghosts ||
        (pm'[b] in pm' && Depths(up', job.trunk)[pm'[b]] < Depths(up', job.trunk)[b])
    {
      assert up'[b] == pm'[b];
    }
    Regrounded(branches, pm', job.trunk, job.ghosts, Depths(up', job.trunk));
  }

  /** However many of the planned moves have been made, what is left is a grounded forest. */
  lemma PartWayIsForest(branches: seq<string>, job: Job, moves: seq<PlannedMove>, pm': ParentMap)
    requires job.Valid() && Standing(branches, job) && MovesFor(job.pm, job.Planned(), job.pm.Keys, moves)
    requires PartWay(job.pm, MovesOf(UpdatesOf(moves)), pm')
    ensures PartReparented(job.pm, job.Planned().Keys, pm')
    ensures Grounded(branches, pm', job.trunk) && Ghosts(branches, pm') <= job.ghosts
  {
    var pm, planned, ms := job.pm, job.Planned().Keys, MovesOf(UpdatesOf(moves));
    PlannedAreDeletionMoves(pm, job.Planned(), moves);
    assert forall m :: m in ms ==> m.branch in pm && IsNearest(pm, planned, pm[m.branch], m.newParent);
    forall b ensures b in pm <==> b in pm'
      ensures b in pm' ==> pm'[b] == pm[b] || IsNearest(pm, planned, pm[b], pm'[b])
    {
      PartWayValue(pm, ms, pm', b);
    }
    StaysGrounded(branches, job, pm');
  }

  // ---------- What is selected ----------

  ghost function ChosenRank(job: Job): Rank
    requires job.Valid()
  {
    map b | b in job.statuses :: if b in job.Up() then Depths(job.Up(), job.trunk)[b] else 0
  }

  lemma PlanIsConsistent(job: Job)
    requires job.Valid()
    ensures Consistent(PlanFor(job.pm, job.statuses), job.Chosen()) && Layered(job.Chosen(), ChosenRank(job))
  {
    forall b | b in job.statuses
      ensures ChildrenIn(job.Chosen(), b) == if b in job.pm then PlannedChildren(job.pm, job.statuses.Keys, b) else {}
    {
    }
    ChosenIsLayered(job);
  }

  lemma ChosenIsLayered(job: Job)
    requires job.Valid()
    ensures Layered(job.Chosen(), ChosenRank(job))
  {
    DepthsRank(job.Up(), job.trunk);
    forall c | c in job.Chosen() && job.Chosen()[c] in job.Chosen()
      ensures ChosenRank(job)[job.Chosen()[c]] < ChosenRank(job)[c]
    {
      assert c in job.pm && job.Up()[c] == job.pm[c] && job.pm[c] in job.Up();
    }
  }

  /** A planned branch reports its recorded parent, be it a ghost, and is counted as the plan has it. */
  lemma ChosenIsCounted(job: Job, pm': ParentMap)
    requires job.Valid() && Reparented(job.pm, job.Planned().Keys, pm')
    ensures Counted(job.Chosen(), b => ParentOrTrunk(pm', job.trunk, b))
  {
    var pp := job.Chosen();
    forall c | c in pp
      ensures pp[c] == ParentOrTrunk(pm', job.trunk, c) ||
        (pp[c] !in pp && ChildrenIn(pp, ParentOrTrunk(pm', job.trunk, c)) == {})
    {
      if c in job.pm { assert c in job.Planned() && pm'[c] == job.pm[c]; }
    }
  }

  /** After the moves, what still hangs from the selection hangs from a ghost: no survivor is left below a branch that
      goes, and no vetoed branch. */
  lemma StrandedByGhosts(job: Job, pm': ParentMap, canDelete: string -> bool, selected: seq<string>)
    requires job.Valid() && Reparented(job.pm, job.Planned().Keys, pm')
    requires IsSelection(job.Chosen(), canDelete, selected)
    ensures forall b :: b in Stranded(pm', selected) ==> pm'[b] in job.ghosts
    ensures job.ghosts == {} ==> Stranded(pm', selected) == {}
  {
    forall b | b in Stranded(pm', selected) ensures pm'[b] in job.ghosts {
      assert pm'[b] in job.Chosen();
      if pm'[b] !in job.ghosts {
        ChildOfPlanned(job, pm', b);
      }
    }
  }

  /** After the moves only planned branches hang from planned branches that exist. */
  lemma ChildOfPlanned(job: Job, pm': ParentMap, b: string)
    requires job.Valid() && Reparented(job.pm, job.Planned().Keys, pm') && b in pm' && pm'[b] in job.Planned()
    ensures b in job.Chosen() && job.Chosen()[b] == pm'[b]
  {
    var up' := Adopted(pm', job.ghosts, job.trunk);
    AdoptedReparented(job, pm');
    ReparentedForest(job.Up(), job.trunk, job.Planned().Keys, up');
    ReparentedInPart(job, pm');
    ParentStands(job, pm', b);
    assert b in up' && up'[b] == pm'[b];
  }

  // ---------- The whole cleanup ----------

  /** Where a branch lands that is sent to p: there, or at trunk when p goes too. */
  function Landing(trunk: string, deleted: seq<string>, p: string): string {
    if p in deleted then trunk else p
  }

  /** b is sent to p: a planned branch stays where it is, any other goes to its nearest ancestor outside the plan. */
  ghost predicate SentTo(pm: ParentMap, planned: set<string>, b: string, p: string)
    requires b in pm
  {
    if b in planned then p == pm[b] else IsNearest(pm, planned, pm[b], p)
  }

  /** The outcome of a cleanup: the deleted branches are gone, survivors of the plan hang from their nearest ancestor
      outside the plan, and planned branches that were kept stay where they were; from a ghost that goes, to trunk. */
  ghost predicate Cleaned(pm: ParentMap, trunk: string, planned: set<string>, deleted: seq<string>, pm': ParentMap) {
    pm'.Keys == pm.Keys - Elems(deleted) &&
    forall b :: b in pm' ==> exists p :: SentTo(pm, planned, b, p) && pm'[b] == Landing(trunk, deleted, p)
  }

  /** Every parent is trunk, a survivor, or a ghost that was kept. */
  ghost predicate ParentsSurvive(pm: ParentMap, trunk: string, ghosts: set<string>, deleted: seq<string>) {
    forall b :: b in pm ==> pm[b] == trunk || pm[b] in pm || (pm[b] in ghosts && pm[b] !in deleted)
  }

  /** A child of a ghost that goes is sent to trunk. */
  lemma GhostChildMoves(job: Job, pm': ParentMap, deleted: seq<string>, b: string, r: string)
    requires job.Valid() && pm'.Keys == job.pm.Keys && job.trunk !in deleted && b in pm' && pm'[b] in job.ghosts
    requires IsDeletionMove(pm', job.trunk, deleted, Move(b, r))
    ensures r == job.trunk && b != r
  {
    var up := BatchParents(pm', job.trunk, deleted);
    assert up[pm'[b]] == job.trunk;
    NearestStep(up, Elems(deleted), job.trunk, r);
    assert Climb(up, job.trunk, 0) !in Elems(deleted);
  }

  /** What deleting the selection after the moves makes of the forest. */
  lemma CleanedResult(branches: seq<string>, job: Job, pm': ParentMap, canDelete: string -> bool, deleted: seq<string>,
      pm'': ParentMap)
    requires job.Valid() && Standing(branches, job) && Reparented(job.pm, job.Planned().Keys, pm')
    requires IsSelection(job.Chosen(), canDelete, deleted) && GoneEntirely(pm', job.trunk, deleted, pm'')
    ensures Cleaned(job.pm, job.trunk, job.Planned().Keys, deleted, pm'')
    ensures ParentsSurvive(pm'', job.trunk, job.ghosts, deleted)
  {
    StrandedByGhosts(job, pm', canDelete, deleted);
    AdoptedReparented(job, pm');
    ReparentedForest(job.Up(), job.trunk, job.Planned().Keys, Adopted(pm', job.ghosts, job.trunk));
    forall b | b in pm''
      ensures SentTo(job.pm, job.Planned().Keys, b, pm'[b]) && pm''[b] == Landing(job.trunk, deleted, pm'[b])
      ensures pm''[b] == job.trunk || pm''[b] in pm'' || (pm''[b] in job.ghosts && pm''[b] !in deleted)
    {
      if pm'[b] in deleted {
        assert b in Stranded(pm', deleted);
        GhostChildMoves(job, pm', deleted, b, pm''[b]);
      } else {
        ParentStands(job, pm', b);
      }
    }
  }

  /** After the moves a parent is trunk, a ghost or a tracked branch. */
  lemma ParentStands(job: Job, pm': ParentMap, b: string)
    requires job.Valid() && PartReparented(job.pm, job.Planned().Keys, pm') && b in pm'
    ensures pm'[b] == job.trunk || pm'[b] in job.ghosts || pm'[b] in pm'
  {
    AdoptedReparented(job, pm');
    var up' := Adopted(pm', job.ghosts, job.trunk);
    PartReparentedForest(job.Up(), job.trunk, job.Planned().Keys, up');
    DepthsRank(up', job.trunk);
    assert up'[b] == pm'[b];
  }

  lemma ReparentedInPart(job: Job, pm': ParentMap)
    requires job.Valid() && Reparented(job.pm, job.Planned().Keys, pm')
    ensures PartReparented(job.pm, job.Planned().Keys, pm')
  {
  }

  /** However far a deletion of the selection got past its refs, what is left is grounded, without new ghosts. */
  lemma GonePartWayIsForest(branches: seq<string>, job: Job, pm': ParentMap, canDelete: string -> bool,
      deleted: seq<string>, pm'': ParentMap)
    requires job.Valid() && Standing(branches, job) && Reparented(job.pm, job.Planned().Keys, pm')
    requires IsSelection(job.Chosen(), canDelete, deleted) && GonePartWay(pm', job.trunk, deleted, pm'')
    ensures Grounded(Without(branches, deleted), pm'', job.trunk)
    ensures Ghosts(Without(branches, deleted), pm'') <= job.ghosts
  {
    StrandedByGhosts(job, pm', canDelete, deleted);
    ReparentedInPart(job, pm');
    AdoptedReparented(job, pm');
    var up' := Adopted(pm', job.ghosts, job.trunk);
    PartReparentedForest(job.Up(), job.trunk, job.Planned().Keys, up');
    DepthsRank(up', job.trunk);
    var rank := Depths(up', job.trunk);
    forall b | b in pm''
      ensures pm''[b] == job.trunk || pm''[b] in job.ghosts || (pm''[b] in pm'' && rank[pm''[b]] < rank[b])
    {
      assert up'[b] == pm'[b];
      if pm'[b] in deleted {
        assert b in Stranded(pm', deleted);
        if pm''[b] != pm'[b] { GhostChildMoves(job, pm', deleted, b, pm''[b]); }
      } else {
        assert pm''[b] == pm'[b];
      }
    }
    Regrounded(Without(branches, deleted), pm'', job.trunk, job.ghosts, rank);
  }

  function Filtered(statuses: Statuses, filter: set<string>): Statuses {
    map b | b in statuses && b in filter :: statuses[b]
  }

  // ---------- When the survivors can be moved ----------

  /** The shape was refused, or a write failed: an outcome no state of the branches rules out. */
  predicate Stopped(r: Outcome) {
    r in {Failed(NotLinear), Failed(NoMetadataCommit)}
  }

  /** b, whose parent is planned, can leave it: b descends from the commit its range starts at if it is to keep its
      divergence point, and git finds a merge base with its nearest ancestor outside the plan if it is not. */
  ghost predicate CanLeave(trunk: string, s: Snapshot, statuses: Statuses, b: string)
    requires b in s.parents && s.parents[b] in statuses
  {
    if Preserves(statuses[s.parents[b]].kind) then KeepsBase(trunk, s, b)
    else exists p :: IsNearest(s.parents, statuses.Keys, s.parents[b], p) && s.git.MergeBase(b, p).Some?
  }

  ghost predicate SurvivorsCanLeave(trunk: string, s: Snapshot, statuses: Statuses) {
    forall b :: b in s.parents && b !in statuses && s.parents[b] in statuses ==> CanLeave(trunk, s, statuses, b)
  }

  /** No planned move sends a branch to itself. */
  lemma PlannedMovesLead(job: Job, moves: seq<PlannedMove>)
    requires job.Valid() && MovesFor(job.pm, job.Planned(), job.pm.Keys, moves)
    ensures forall m :: m in moves ==> m.branchName != m.newParentName
  {
    var up, planned := job.Up(), job.Planned().Keys;
    DepthsRank(up, job.trunk);
    forall m | m in moves ensures m.branchName != m.newParentName {
      AdoptedNearest(job.pm, job.ghosts, job.trunk, planned, up[m.branchName]);
      var r := ForestNearest(up, job.trunk, Depths(up, job.trunk), planned, up[m.branchName]);
      NearestUnique(up, planned, up[m.branchName], r, m.newParentName);
    }
  }

  /** The planned moves can all be made iff every survivor of a planned parent can leave it. */
  lemma UpdatesFit(job: Job, s: Snapshot, moves: seq<PlannedMove>)
    requires job.Valid() && s.parents == job.pm && MovesFor(job.pm, job.Planned(), job.pm.Keys, moves)
    ensures forall u :: u in UpdatesOf(moves) ==> u.branch != u.newParent
    ensures AllCanUpdate(job.trunk, s, UpdatesOf(moves)) <==> SurvivorsCanLeave(job.trunk, s, job.Planned())
  {
    PlannedMovesLead(job, moves);
    forall i | 0 <= i < |moves|
      ensures moves[i] in moves && UpdatesOf(moves)[i] in UpdatesOf(moves)
      ensures CanUpdate(job.trunk, s, UpdatesOf(moves)[i]) <==>
        CanLeave(job.trunk, s, job.Planned(), moves[i].branchName)
    {
      UpdateFits(job.trunk, s, job.Planned(), moves[i]);
    }
    assert forall u :: u in UpdatesOf(moves) ==> exists i :: 0 <= i < |moves| && u == UpdatesOf(moves)[i];
    if AllCanUpdate(job.trunk, s, UpdatesOf(moves)) {
      forall b | b in s.parents && b !in job.Planned() && s.parents[b] in job.Planned()
        ensures CanLeave(job.trunk, s, job.Planned(), b)
      {
        var i :| 0 <= i < |moves| && moves[i].branchName == b;
      }
    }
  }

  lemma UpdateFits(trunk: string, s: Snapshot, statuses: Statuses, m: PlannedMove)
    requires GoodMove(s.parents, statuses, m) && m.branchName != m.newParentName
    ensures CanUpdate(trunk, s, UpdatesOf([m])[0]) <==> CanLeave(trunk, s, statuses, m.branchName)
  {
    forall p | IsNearest(s.parents, statuses.Keys, s.parents[m.branchName], p) ensures p == m.newParentName {
      NearestUnique(s.parents, statuses.Keys, s.parents[m.branchName], p, m.newParentName);
    }
  }

  /** p has one child x, which stores p's tip and was rebased by hand, so that it no longer descends from it. If p goes
      because it was merged or is empty, x cannot leave it; if p goes for another reason, it can. */
  lemma RebasedSurvivorIsStuck(kind: ReasonKind)
    ensures var s := Snapshot(RebasedGit(), map["p" := "t", "x" := "p"], map["p" := "c0", "x" := "c1"]);
      s.git.Sound() && WellFormed(s.parents, "t") &&
      (SurvivorsCanLeave("t", s, map["p" := DeletionStatus("", kind)]) <==>
        kind.NoReason? || kind.ClosedPR? || kind.GhostBranch?)
  {
    var s := Snapshot(RebasedGit(), map["p" := "t", "x" := "p"], map["p" := "c0", "x" := "c1"]);
    var planned: Statuses := map["p" := DeletionStatus("", kind)];
    assert "p"[0] != "x"[0] && "p"[0] != "t"[0] && "x"[0] != "t"[0];
    assert "c1"[1] != "c2"[1] && "c1"[1] != "c3"[1] && "c2"[1] != "c3"[1] && "c0"[1] != "c1"[1];
    RankedWellFormed(s.parents, "t", map["p" := 1, "x" := 2]);
    assert !KeepsBase("t", s, "x");
    NearestStep(s.parents, planned.Keys, "p", "t");
    NearestStep(s.parents, planned.Keys, "t", "t");
    assert CanLeave("t", s, planned, "x") <==> !Preserves(kind);
  }

  /** A survivor with no history in common with trunk cannot leave a parent whose pull request was closed. */
  lemma UnrelatedSurvivorIsStuck()
    ensures var s := Snapshot(UnrelatedGit(), map["p" := "t", "b" := "p"], map[]);
      s.git.Sound() && WellFormed(s.parents, "t") &&
      !SurvivorsCanLeave("t", s, map["p" := DeletionStatus("", ClosedPR)])
  {
    var s := Snapshot(UnrelatedGit(), map["p" := "t", "b" := "p"], map[]);
    assert "p"[0] != "b"[0] && "p"[0] != "t"[0] && "b"[0] != "t"[0];
    RankedWellFormed(s.parents, "t", map["p" := 1, "b" := 2]);
    assert !CanLeave("t", s, map["p" := DeletionStatus("", ClosedPR)], "b");
  }

  /** A survivor whose nearest ancestor outside the plan is a ghost without a ref cannot leave a parent that goes for a
      reason that does not keep divergence points: the move is to the ghost, and git finds no merge base with it. */
  lemma StuckBelowGhost(trunk: string, s: Snapshot, statuses: Statuses, b: string, g: string)
    requires b in s.parents && b !in statuses && s.parents[b] in statuses && !Preserves(statuses[s.parents[b]].kind)
    requires IsNearest(s.parents, statuses.Keys, s.parents[b], g) && g !in s.git.tips
    ensures !SurvivorsCanLeave(trunk, s, statuses)
  {
    forall p | IsNearest(s.parents, statuses.Keys, s.parents[b], p) ensures p == g {
      NearestUnique(s.parents, statuses.Keys, s.parents[b], p, g);
    }
    assert !CanLeave(trunk, s, statuses, b);
  }

  /** Two stacks on one ghost g: d and its child x, e and its child y, in a linear graph. With d and e planned both x
      and y are to move to g, and the validator refuses two children below it. */
  lemma GhostForksStacks()
    ensures var branches, pm := ["t", "d", "e", "x", "y"], map["d" := "g", "e" := "g", "x" := "d", "y" := "e"];
      var planned: Statuses, moves := map["d" := DeletionStatus("", MergedPR), "e" := DeletionStatus("", MergedPR)],
        [PlannedMove("x", "g", true), PlannedMove("y", "g", true)];
      Grounded(branches, pm, "t") && Linear(branches, pm, "t") && MovesFor(pm, planned, pm.Keys, moves) &&
      !LinearAfter("t", branches, pm, MovesOf(UpdatesOf(moves)), ["d", "e", "g"])
  {
    var branches, pm: ParentMap := ["t", "d", "e", "x", "y"], map["d" := "g", "e" := "g", "x" := "d", "y" := "e"];
    var planned: Statuses := map["d" := DeletionStatus("", MergedPR), "e" := DeletionStatus("", MergedPR)];
    var moves := [PlannedMove("x", "g", true), PlannedMove("y", "g", true)];
    GhostStacksGrounded();
    GhostStacksLinear();
    GhostStackMoves();
    var ms := MovesOf(UpdatesOf(moves));
    assert ms[0] == Move("x", "g") && ms[1] == Move("y", "g") && "x"[0] != "y"[0] && "g"[0] != "t"[0];
    assert FinalEdge(branches, pm, ms, ["d", "e", "g"], "g", "x") &&
      FinalEdge(branches, pm, ms, ["d", "e", "g"], "g", "y");
  }

  lemma GhostStacksGrounded()
    ensures Grounded(["t", "d", "e", "x", "y"], map["d" := "g", "e" := "g", "x" := "d", "y" := "e"], "t")
  {
    var branches, pm: ParentMap := ["t", "d", "e", "x", "y"], map["d" := "g", "e" := "g", "x" := "d", "y" := "e"];
    assert "d"[0] != "e"[0] && "d"[0] != "x"[0] && "d"[0] != "y"[0] && "e"[0] != "x"[0] && "e"[0] != "y"[0];
    assert "x"[0] != "y"[0] && "g"[0] != "t"[0] && "g"[0] != "d"[0] && "g"[0] != "e"[0] && "g"[0] != "x"[0];
    assert "g"[0] != "y"[0] && "t"[0] != "d"[0] && "t"[0] != "e"[0] && "t"[0] != "x"[0] && "t"[0] != "y"[0];
    assert branches[0] == "t" && branches[1] == "d" && branches[2] == "e" && branches[3] == "x" && branches[4] == "y";
    Regrounded(branches, pm, "t", {"g"}, map["d" := 0, "e" := 0, "x" := 1, "y" := 1]);
  }

  lemma GhostStacksLinear()
    ensures Linear(["t", "d", "e", "x", "y"], map["d" := "g", "e" := "g", "x" := "d", "y" := "e"], "t")
  {
    var branches, pm: ParentMap := ["t", "d", "e", "x", "y"], map["d" := "g", "e" := "g", "x" := "d", "y" := "e"];
    assert "d"[0] != "e"[0] && "x"[0] != "y"[0];
    assert "g"[0] != "t"[0] && "g"[0] != "d"[0] && "g"[0] != "e"[0] && "g"[0] != "x"[0] && "g"[0] != "y"[0];
    forall c | GraphParent(branches, pm, c) != ""
      ensures (c == "x" && GraphParent(branches, pm, c) == "d") || (c == "y" && GraphParent(branches, pm, c) == "e")
    {
    }
  }

  lemma GhostStackMoves()
    ensures var pm := map["d" := "g", "e" := "g", "x" := "d", "y" := "e"];
      var planned: Statuses, moves := map["d" := DeletionStatus("", MergedPR), "e" := DeletionStatus("", MergedPR)],
        [PlannedMove("x", "g", true), PlannedMove("y", "g", true)];
      MovesFor(pm, planned, pm.Keys, moves)
  {
    var pm: ParentMap := map["d" := "g", "e" := "g", "x" := "d", "y" := "e"];
    var planned: Statuses := map["d" := DeletionStatus("", MergedPR), "e" := DeletionStatus("", MergedPR)];
    var moves := [PlannedMove("x", "g", true), PlannedMove("y", "g", true)];
    assert "d"[0] != "e"[0] && "d"[0] != "x"[0] && "d"[0] != "y"[0] && "e"[0] != "x"[0] && "e"[0] != "y"[0] &&
      "x"[0] != "y"[0] && "g"[0] != "d"[0] && "g"[0] != "e"[0];
    NearestStep(pm, planned.Keys, "d", "g");
    NearestStep(pm, planned.Keys, "e", "g");
    NearestStep(pm, planned.Keys, "g", "g");
    assert moves[0] in moves && moves[1] in moves;
  }

  // ---------- The two phases ----------

  method ApplyReparentMoves(eng: Engine, moves: seq<PlannedMove>, removed: seq<string>) returns (r: Outcome)
    modifies eng`parents, eng`revs
    ensures r.Done? ==> eng.parents == ApplyMoves(old(eng.parents), MovesOf(UpdatesOf(moves)))
    ensures r.Done? ==> PreservedKeepRanges(eng.trunk, old(eng.Now()), eng.Now(), UpdatesOf(moves))
    ensures r.Done? ==> PinnedOrKept(eng.trunk, old(eng.Now()), eng.Now(), UpdatesOf(moves))
    ensures r.Done? && OncePerBranch(UpdatesOf(moves)) ==>
      Refreshed(eng.trunk, old(eng.Now()), eng.Now(), UpdatesOf(moves), |moves|)
    ensures r.Done? && eng.git.Sound() && old(Anchored(eng.Now())) ==> Anchored(eng.Now())
    ensures r == Failed(NotLinear) ==>
      !old(eng.Accepted(MovesOf(UpdatesOf(moves)), removed)) && eng.Now() == old(eng.Now())
    ensures PartWay(old(eng.parents), MovesOf(UpdatesOf(moves)), eng.parents)
    ensures (forall u :: u in UpdatesOf(moves) ==> u.branch != u.newParent) && !Stopped(r) ==>
      (r.Done? <==> AllCanUpdate(eng.trunk, old(eng.Now()), UpdatesOf(moves)))
    ensures (forall u :: u in UpdatesOf(moves) ==> u.branch != u.newParent) ==>
      (r == Failed(NotLinear) <==> !old(eng.Accepted(MovesOf(UpdatesOf(moves)), removed)))
    ensures eng.reliable ==> !Faulted(r)
  {
    assert MovedFirst(eng.parents, MovesOf(UpdatesOf(moves)), 0, eng.parents);
    if moves == [] { return Done; }
    r := eng.ApplyParentUpdatesAfterRemovals(UpdatesOf(moves), removed);
  }

  /** The branches of a selection that nothing vetoes, below them or at them. */
  ghost predicate Goes(job: Job, canDelete: string -> bool, b: string) {
    b in job.Chosen() && PassesBelow(job.Chosen(), canDelete, b)
  }

  /** Every branch that stays and whose parent goes is rooted in its stored revision. */
  ghost predicate OrphansRooted(job: Job, canDelete: string -> bool, s: Snapshot) {
    forall b :: b in s.parents && !Goes(job, canDelete, b) && Goes(job, canDelete, s.parents[b]) ==> Rooted(s, b)
  }

  /** The plan is the job's, and the engine's forest is the job's with the survivors reparented. */
  ghost predicate ReadyToDelete(job: Job, entries: Entries, branches: seq<string>, pm: ParentMap, trunk: string) {
    job.Valid() && job.trunk == trunk && Standing(branches, job) && entries == PlanFor(job.pm, job.statuses) &&
    Reparented(job.pm, job.Planned().Keys, pm)
  }

  /** What deleting the selection of a job leaves. Children of ghosts are moved only now, with the refs gone; when no
      write fails, the deletion succeeds iff all of those that stay are rooted. */
  ghost predicate SelectionGone(r: Outcome, job: Job, s: Snapshot, branches': seq<string>, s': Snapshot,
      canDelete: string -> bool, deleted: seq<string>)
  {
    IsSelection(job.Chosen(), canDelete, deleted) &&
    (r.Done? ==> Cleaned(job.pm, job.trunk, job.Planned().Keys, deleted, s'.parents)) &&
    (r.Done? ==> ParentsSurvive(s'.parents, job.trunk, job.ghosts, deleted)) &&
    Grounded(branches', s'.parents, job.trunk) && Ghosts(branches', s'.parents) <= job.ghosts &&
    r != Failed(TrunkInBatch) && (job.ghosts == {} ==> r.Done? || r == Failed(RefsNotDeleted)) &&
    (!Refused(r) && r != Failed(NoMetadataCommit) ==> (r.Done? <==> OrphansRooted(job, canDelete, s)))
  }

  /** Deletes whatever of an already reparented plan may be deleted. */
  method ExecuteDeletions(eng: Engine, plan: DeletionPlan, canDelete: string -> bool, ghost job: Job)
    returns (r: Outcome, deleted: seq<string>)
    modifies plan, eng`branches, eng`parents, eng`revs, eng`git, eng`currentBranch
    ensures (eng.reliable ==> !Faulted(r)) && (r == Failed(NotLinear) ==> eng.linearStacks)
    ensures old(ReadyToDelete(job, plan.branches, eng.branches, eng.parents, eng.trunk)) ==>
      SelectionGone(r, job, old(eng.Now()), eng.branches, eng.Now(), canDelete, deleted)
    ensures forall b :: b in deleted ==> b in old(plan.branches) && canDelete(b)
    ensures r.Done? ==> eng.branches == Without(old(eng.branches), deleted)
    ensures RefsGone(old(eng.branches), old(eng.git), if Refused(r) then [] else deleted, eng.branches, eng.git)
    ensures r.Done? ==> GoneEntirely(old(eng.parents), eng.trunk, deleted, eng.parents)
    ensures r.Done? ==> SurvivorsKeepRanges(eng.trunk, old(eng.Now()), eng.Now(), deleted)
    ensures old(Anchored(eng.Now())) ==> Anchored(eng.Now())
    ensures Refused(r) ==> eng.Now() == old(eng.Now()) && eng.branches == old(eng.branches)
  {
    ghost var mid, branches := eng.Now(), eng.branches;
    ghost var ready := ReadyToDelete(job, plan.branches, eng.branches, eng.parents, eng.trunk);
    var now, trunk := eng.parents, eng.trunk;
    var parentName := (b: string) => ParentOrTrunk(now, trunk, b);
    ghost var asked, layers, rank: Rank := [], [], map[];
    if ready {
      SelectableJob(job, plan.branches, now);
      rank := ChosenRank(job);
    }
    deleted, asked, layers := SelectBranchesForDeletion(plan, canDelete, parentName, job.Chosen(), rank);
    if ready { SelectionMoves(job, now, canDelete, deleted); }
    var restack;
    r, restack := eng.DeleteBranches(deleted);
    if ready { SelectionIsGone(r, job, branches, mid, eng.branches, eng.Now(), canDelete, deleted); }
  }

  lemma SelectableJob(job: Job, entries: Entries, pm': ParentMap)
    requires job.Valid() && entries == PlanFor(job.pm, job.statuses)
    requires Reparented(job.pm, job.Planned().Keys, pm')
    ensures Selectable(entries, job.Chosen(), b => ParentOrTrunk(pm', job.trunk, b), ChosenRank(job))
  {
    PlanIsConsistent(job);
    ChosenIsCounted(job, pm');
  }

  lemma SelectionIsGone(r: Outcome, job: Job, branches: seq<string>, s: Snapshot, branches': seq<string>, s': Snapshot,
      canDelete: string -> bool, deleted: seq<string>)
    requires job.Valid() && Standing(branches, job) && Reparented(job.pm, job.Planned().Keys, s.parents)
    requires IsSelection(job.Chosen(), canDelete, deleted) && r != Failed(TrunkInBatch)
    requires Refused(r) ==> s' == s && branches' == branches
    requires !Refused(r) ==>
      branches' == Without(branches, deleted) && GonePartWay(s.parents, job.trunk, deleted, s'.parents)
    requires r.Done? ==> GoneEntirely(s.parents, job.trunk, deleted, s'.parents)
    requires Stranded(s.parents, deleted) == {} ==> r.Done? || r == Failed(RefsNotDeleted)
    requires !Refused(r) && r != Failed(NoMetadataCommit) ==>
      (r.Done? <==> AllRooted(s, Stranded(s.parents, deleted)))
    ensures SelectionGone(r, job, s, branches', s', canDelete, deleted)
  {
    SelectionMoves(job, s.parents, canDelete, deleted);
    if Refused(r) {
      ReparentedInPart(job, s.parents);
      StaysGrounded(branches, job, s.parents);
    } else {
      GonePartWayIsForest(branches, job, s.parents, canDelete, deleted, s'.parents);
    }
    if r.Done? { CleanedResult(branches, job, s.parents, canDelete, deleted, s'.parents); }
    OrphansAreStranded(job, s, canDelete, deleted);
  }

  /** The deletion of a selection moves only children of ghosts, all to trunk. */
  lemma SelectionMoves(job: Job, pm': ParentMap, canDelete: string -> bool, deleted: seq<string>)
    requires job.Valid() && Reparented(job.pm, job.Planned().Keys, pm')
    requires IsSelection(job.Chosen(), canDelete, deleted)
    ensures job.trunk !in deleted && MovesLead(pm', job.trunk, deleted)
    ensures job.ghosts == {} ==> Stranded(pm', deleted) == {}
  {
    StrandedByGhosts(job, pm', canDelete, deleted);
    forall b | b in Stranded(pm', deleted)
      ensures b != job.trunk && !IsDeletionMove(pm', job.trunk, deleted, Move(b, b))
    {
      if IsDeletionMove(pm', job.trunk, deleted, Move(b, b)) { GhostChildMoves(job, pm', deleted, b, b); }
    }
  }

  lemma OrphansAreStranded(job: Job, s: Snapshot, canDelete: string -> bool, deleted: seq<string>)
    requires IsSelection(job.Chosen(), canDelete, deleted)
    ensures OrphansRooted(job, canDelete, s) <==> AllRooted(s, Stranded(s.parents, deleted))
  {
    assert forall b :: b in deleted <==> Goes(job, canDelete, b);
  }

  /** The moves of a plan are those of a deletion of the whole plan, so in a linear forest they pass the validator. */
  lemma CleanupAccepted(branches: seq<string>, pm: ParentMap, trunk: string, statuses: Statuses,
      moves: seq<PlannedMove>, removed: seq<string>)
    requires Closed(branches, pm, trunk) && WellFormed(pm, trunk) && Linear(branches, pm, trunk) && trunk !in statuses
    requires MovesFor(pm, statuses, pm.Keys, moves) && Elems(removed) == statuses.Keys
    ensures LinearAfter(trunk, branches, pm, MovesOf(UpdatesOf(moves)), removed)
  {
    PlannedAreDeletionMoves(pm, statuses, moves);
    DeletionAccepted(branches, pm, trunk, statuses.Keys, MovesOf(UpdatesOf(moves)), removed);
  }

  /** With nothing vetoed a cleanup is a deletion of the whole plan, so it keeps a linear forest linear. */
  lemma FullCleanupIsLinear(branches: seq<string>, pm: ParentMap, trunk: string, statuses: Statuses,
      moves: seq<PlannedMove>, deleted: seq<string>, pm': ParentMap)
    requires Closed(branches, pm, trunk) && WellFormed(pm, trunk) && Linear(branches, pm, trunk) && trunk !in statuses
    requires MovesFor(pm, statuses, pm.Keys, moves) && Elems(deleted) == statuses.Keys
    requires Cleaned(pm, trunk, statuses.Keys, deleted, pm')
    ensures Linear(Without(branches, deleted), pm', trunk)
  {
    var ms := MovesOf(UpdatesOf(moves));
    CleanupAccepted(branches, pm, trunk, statuses, moves, deleted);
    AcceptedIsLinear(trunk, branches, pm, ms, deleted);
    PlannedAreDeletionMoves(pm, statuses, moves);
    MovesGiveResult(pm, trunk, statuses.Keys, ms, deleted);
    forall b | b in pm' ensures IsNearest(pm, statuses.Keys, pm[b], pm'[b]) {
      var p :| SentTo(pm, statuses.Keys, b, p) && pm'[b] == Landing(trunk, deleted, p);
    }
    ResultUnique(pm, statuses.Keys, ParentsAfter(pm, ms, deleted), pm');
  }

  lemma ResultUnique(pm: ParentMap, gone: set<string>, pm1: ParentMap, pm2: ParentMap)
    requires DeletionResult(pm, gone, pm1) && pm2.Keys == pm.Keys - gone &&
      forall b :: b in pm2 ==> IsNearest(pm, gone, pm[b], pm2[b])
    ensures pm1 == pm2
  {
    forall b | b in pm1 ensures pm1[b] == pm2[b] { NearestUnique(pm, gone, pm[b], pm1[b], pm2[b]); }
  }

  /** Branches outside the deleted ones own the commits they did, unless a move recomputed their divergence point. */
  ghost predicate CleanupKeepsRanges(trunk: string, s: Snapshot, s': Snapshot, statuses: Statuses,
      deleted: seq<string>) {
    forall b :: b !in deleted && !Rebased(s.parents, statuses, b) ==> OwnRange(trunk, s, b) == OwnRange(trunk, s', b)
  }

  /** b survives a parent that is deleted for a reason that does not keep divergence points. */
  ghost predicate Rebased(pm: ParentMap, statuses: Statuses, b: string) {
    b in pm && b !in statuses && pm[b] in statuses && !Preserves(statuses[pm[b]].kind)
  }

  /** b owns the commits from the revision a recompute for its nearest ancestor outside the plan leaves, to its tip. */
  ghost predicate OwnsFresh(trunk: string, s: Snapshot, s': Snapshot, planned: set<string>, b: string)
    requires b in s.parents
  {
    exists p :: IsNearest(s.parents, planned, s.parents[b], p) && b in s.git.tips &&
      OwnRange(trunk, s', b) == Some(RevRange(FreshRevision(trunk, s, b, p), s.git.tips[b]))
  }

  /** The survivors whose divergence point a cleanup recomputes. */
  ghost predicate RebasedOwnFresh(trunk: string, s: Snapshot, s': Snapshot, statuses: Statuses) {
    forall b :: Rebased(s.parents, statuses, b) ==> OwnsFresh(trunk, s, s', statuses.Keys, b)
  }

  lemma RebasedAreFresh(trunk: string, s: Snapshot, s1: Snapshot, s2: Snapshot, statuses: Statuses,
      moves: seq<PlannedMove>, deleted: seq<string>)
    requires trunk !in s.parents && s.git.Sound() && MovesFor(s.parents, statuses, s.parents.Keys, moves) &&
      (forall b :: b in deleted && b in s.parents ==> b in statuses)
    requires s1.git == s.git && Refreshed(trunk, s, s1, UpdatesOf(moves), |moves|) &&
      SurvivorsKeepRanges(trunk, s1, s2, deleted)
    ensures RebasedOwnFresh(trunk, s, s2, statuses)
  {
    forall b | Rebased(s.parents, statuses, b) ensures OwnsFresh(trunk, s, s2, statuses.Keys, b) {
      var i :| 0 <= i < |moves| && moves[i].branchName == b;
      assert moves[i] in moves && UpdatesOf(moves)[i].mode == Recompute && b !in deleted;
      assert OwnRange(trunk, s1, b) == OwnRange(trunk, s2, b);
    }
  }

  lemma PlannedOncePerBranch(moves: seq<PlannedMove>)
    requires NoRepeats(moves)
    ensures OncePerBranch(UpdatesOf(moves))
  {
  }

  lemma RecomputedAreRebased(pm: ParentMap, statuses: Statuses, moves: seq<PlannedMove>, b: string)
    requires MovesFor(pm, statuses, pm.Keys, moves) && HasRecompute(UpdatesOf(moves), b)
    ensures Rebased(pm, statuses, b)
  {
    var u :| u in UpdatesOf(moves) && u.branch == b && u.mode == Recompute;
    var i :| 0 <= i < |moves| && UpdatesOf(moves)[i] == u;
    assert moves[i] in moves;
  }

  lemma RangesThroughCleanup(trunk: string, s: Snapshot, s1: Snapshot, s2: Snapshot, statuses: Statuses,
      moves: seq<PlannedMove>, deleted: seq<string>)
    requires MovesFor(s.parents, statuses, s.parents.Keys, moves)
    requires PreservedKeepRanges(trunk, s, s1, UpdatesOf(moves)) && SurvivorsKeepRanges(trunk, s1, s2, deleted)
    ensures CleanupKeepsRanges(trunk, s, s2, statuses, deleted)
  {
    forall b | b !in deleted && !Rebased(s.parents, statuses, b)
      ensures OwnRange(trunk, s, b) == OwnRange(trunk, s2, b)
    {
      if HasRecompute(UpdatesOf(moves), b) { RecomputedAreRebased(s.parents, statuses, moves, b); }
    }
  }

  /** What the two phases of a cleanup do to the commits the branches own. */
  lemma CleanupRanges(trunk: string, s: Snapshot, s1: Snapshot, s2: Snapshot, statuses: Statuses,
      moves: seq<PlannedMove>, deleted: seq<string>)
    requires trunk !in s.parents && MovesFor(s.parents, statuses, s.parents.Keys, moves) &&
      (forall b :: b in deleted && b in s.parents ==> b in statuses)
    requires s1.git == s.git && Refreshed(trunk, s, s1, UpdatesOf(moves), |moves|)
    requires PreservedKeepRanges(trunk, s, s1, UpdatesOf(moves)) && SurvivorsKeepRanges(trunk, s1, s2, deleted)
    ensures CleanupKeepsRanges(trunk, s, s2, statuses, deleted) &&
      (s.git.Sound() ==> RebasedOwnFresh(trunk, s, s2, statuses))
  {
    RangesThroughCleanup(trunk, s, s1, s2, statuses, moves, deleted);
    if s.git.Sound() { RebasedAreFresh(trunk, s, s1, s2, statuses, moves, deleted); }
  }

  /** A plan and its moves are those of the job. */
  ghost predicate IsPlan(job: Job, entries: Entries, moves: seq<PlannedMove>) {
    entries == PlanFor(job.pm, job.statuses) && MovesFor(job.pm, job.Planned(), job.pm.Keys, moves)
  }

  /** The job is about the engine's forest as it stands. */
  ghost predicate IsJob(branches: seq<string>, pm: ParentMap, trunk: string, job: Job) {
    Grounded(branches, pm, trunk) && job == Job(trunk, pm, Ghosts(branches, pm), job.statuses) &&
    job.ghosts <= job.statuses.Keys && trunk !in job.statuses && "" !in job.statuses
  }

  lemma JobStands(branches: seq<string>, pm: ParentMap, trunk: string, job: Job)
    requires IsJob(branches, pm, trunk, job)
    ensures job.Valid() && Standing(branches, job)
    ensures Closed(branches, pm, trunk) ==> job.ghosts == {} && job.Planned() == job.statuses && WellFormed(pm, trunk)
  {
    forall b | b in pm ensures b !in job.ghosts { assert b in branches; }
    if Closed(branches, pm, trunk) {
      ClosedIsGrounded(branches, pm, trunk);
      assert job.statuses - {} == job.statuses;
    }
  }

  /** Without ghosts, the moves of a plan for a linear forest pass the validator. */
  lemma JobAccepted(branches: seq<string>, job: Job, moves: seq<PlannedMove>, removed: seq<string>)
    requires IsJob(branches, job.pm, job.trunk, job) && MovesFor(job.pm, job.Planned(), job.pm.Keys, moves)
    requires Elems(removed) == job.statuses.Keys
    ensures Closed(branches, job.pm, job.trunk) && Linear(branches, job.pm, job.trunk) ==>
      LinearAfter(job.trunk, branches, job.pm, MovesOf(UpdatesOf(moves)), removed)
  {
    JobStands(branches, job.pm, job.trunk, job);
    if Closed(branches, job.pm, job.trunk) && Linear(branches, job.pm, job.trunk) {
      CleanupAccepted(branches, job.pm, job.trunk, job.statuses, moves, removed);
    }
  }

  /** The shape rule lets a plan through: no survivor is to move, or deleting the whole plan leaves a linear graph. */
  ghost predicate PlanFits(branches: seq<string>, job: Job) {
    (forall b :: b in job.pm && b !in job.statuses ==> job.pm[b] !in job.statuses) ||
    forall gone, pm' :: WholeGone(job, gone, pm') ==> Linear(Without(branches, gone), pm', job.trunk)
  }

  /** pm' is the forest with the whole plan deleted, listed as gone. */
  ghost predicate WholeGone(job: Job, gone: seq<string>, pm': ParentMap) {
    Elems(gone) == job.statuses.Keys && DeletionResult(job.pm, Elems(gone), pm')
  }

  /** Without ghosts the moves of a plan pass the validator iff the plan fits. */
  lemma PlanFitsIff(branches: seq<string>, job: Job, moves: seq<PlannedMove>, removed: seq<string>)
    requires IsJob(branches, job.pm, job.trunk, job) && Closed(branches, job.pm, job.trunk)
    requires MovesFor(job.pm, job.Planned(), job.pm.Keys, moves) && Elems(removed) == job.statuses.Keys
    ensures moves == [] || LinearAfter(job.trunk, branches, job.pm, MovesOf(UpdatesOf(moves)), removed) <==>
      PlanFits(branches, job)
  {
    JobStands(branches, job.pm, job.trunk, job);
    PlannedStay(branches, job, moves, removed);
    VerdictIsExact(job.trunk, branches, job.pm, MovesOf(UpdatesOf(moves)), removed);
    MovesGiveWhole(job, moves, removed);
    OneWhole(branches, job, removed, ParentsAfter(job.pm, MovesOf(UpdatesOf(moves)), removed));
    NobodyMoves(job.pm, job.statuses, moves);
  }

  lemma MovesGiveWhole(job: Job, moves: seq<PlannedMove>, removed: seq<string>)
    requires MovesFor(job.pm, job.statuses, job.pm.Keys, moves) && Elems(removed) == job.statuses.Keys
    ensures WholeGone(job, removed, ParentsAfter(job.pm, MovesOf(UpdatesOf(moves)), removed))
  {
    PlannedAreDeletionMoves(job.pm, job.statuses, moves);
    MovesGiveResult(job.pm, job.trunk, job.statuses.Keys, MovesOf(UpdatesOf(moves)), removed);
  }

  /** There is one graph without the plan. */
  lemma OneWhole(branches: seq<string>, job: Job, removed: seq<string>, pm: ParentMap)
    requires WholeGone(job, removed, pm)
    ensures Linear(Without(branches, removed), pm, job.trunk) <==>
      forall gone, pm' :: WholeGone(job, gone, pm') ==> Linear(Without(branches, gone), pm', job.trunk)
  {
    forall gone, pm' | WholeGone(job, gone, pm')
      ensures Without(branches, gone) == Without(branches, removed) && pm' == pm
    {
      WithoutSame(branches, gone, removed);
      ResultUnique(job.pm, Elems(removed), pm, pm');
    }
  }

  lemma NobodyMoves(pm: ParentMap, statuses: Statuses, moves: seq<PlannedMove>)
    requires MovesFor(pm, statuses, pm.Keys, moves)
    ensures moves == [] <==> forall b :: b in pm && b !in statuses ==> pm[b] !in statuses
  {
    if moves != [] { assert moves[0] in moves; }
  }

  lemma {:induction false} WithoutSame(branches: seq<string>, gone: seq<string>, removed: seq<string>)
    requires Elems(gone) == Elems(removed)
    ensures Without(branches, gone) == Without(branches, removed)
  {
    if branches != [] {
      assert branches[0] in gone <==> branches[0] in Elems(gone);
      assert branches[0] in removed <==> branches[0] in Elems(removed);
      WithoutSame(branches[1..], gone, removed);
    }
  }

  lemma PlannedStay(branches: seq<string>, job: Job, moves: seq<PlannedMove>, removed: seq<string>)
    requires job.Valid() && WellFormed(job.pm, job.trunk) && Closed(branches, job.pm, job.trunk)
    requires MovesFor(job.pm, job.statuses, job.pm.Keys, moves) && Elems(removed) == job.statuses.Keys
    ensures Staying(branches, MovesOf(UpdatesOf(moves)), removed) && OneTarget(MovesOf(UpdatesOf(moves)))
  {
    var pm := job.pm;
    DepthsRank(pm, job.trunk);
    forall m | m in moves
      ensures m.branchName in branches && m.newParentName in branches
      ensures m.branchName !in removed && m.newParentName !in removed
    {
      var r := ForestNearest(pm, job.trunk, Depths(pm, job.trunk), job.statuses.Keys, pm[m.branchName]);
      NearestUnique(pm, job.statuses.Keys, pm[m.branchName], r, m.newParentName);
      assert m.branchName in removed <==> m.branchName in Elems(removed);
      assert m.newParentName in removed <==> m.newParentName in Elems(removed);
    }
    forall m | m in MovesOf(UpdatesOf(moves))
      ensures m.branch in branches && m.newParent in branches && m.branch !in removed && m.newParent !in removed
    {
      MovesMatch(moves, m);
    }
  }

  /** What the moves of a plan can be relied on for. */
  lemma MovesAre(branches: seq<string>, job: Job, s: Snapshot, moves: seq<PlannedMove>, removed: seq<string>)
    requires IsJob(branches, s.parents, job.trunk, job) && MovesFor(job.pm, job.Planned(), job.pm.Keys, moves)
    requires Elems(removed) == job.statuses.Keys
    ensures OncePerBranch(UpdatesOf(moves)) && forall u :: u in UpdatesOf(moves) ==> u.branch != u.newParent
    ensures AllCanUpdate(job.trunk, s, UpdatesOf(moves)) <==> SurvivorsCanLeave(job.trunk, s, job.Planned())
    ensures Reparented(job.pm, job.Planned().Keys, ApplyMoves(job.pm, MovesOf(UpdatesOf(moves))))
    ensures Closed(branches, job.pm, job.trunk) && Linear(branches, job.pm, job.trunk) ==>
      LinearAfter(job.trunk, branches, job.pm, MovesOf(UpdatesOf(moves)), removed)
    ensures Closed(branches, job.pm, job.trunk) ==>
      (moves == [] || LinearAfter(job.trunk, branches, job.pm, MovesOf(UpdatesOf(moves)), removed) <==>
        PlanFits(branches, job))
    ensures forall pm' :: PartWay(job.pm, MovesOf(UpdatesOf(moves)), pm') ==> LeavesForest(branches, job, pm')
  {
    JobStands(branches, s.parents, job.trunk, job);
    PlannedOncePerBranch(moves);
    PlannedAreDeletionMoves(job.pm, job.Planned(), moves);
    UpdatesFit(job, s, moves);
    JobAccepted(branches, job, moves, removed);
    if Closed(branches, job.pm, job.trunk) { PlanFitsIff(branches, job, moves, removed); }
    forall pm' | PartWay(job.pm, MovesOf(UpdatesOf(moves)), pm') ensures LeavesForest(branches, job, pm') {
      PartWayIsForest(branches, job, moves, pm');
    }
  }

  /** Survivors are where they were or where they are to go, in a grounded forest without new ghosts. */
  ghost predicate LeavesForest(branches: seq<string>, job: Job, pm': ParentMap) {
    PartReparented(job.pm, job.Planned().Keys, pm') &&
    Grounded(branches, pm', job.trunk) && Ghosts(branches, pm') <= job.ghosts
  }

  /** The survivors hang from their nearest ancestors outside the plan; divergence points are kept or recomputed as the
      moves say; what is anchored stays so. */
  ghost predicate SurvivorsLeft(job: Job, s: Snapshot, s1: Snapshot, moves: seq<PlannedMove>) {
    s1.git == s.git && Reparented(job.pm, job.Planned().Keys, s1.parents) &&
    PreservedKeepRanges(job.trunk, s, s1, UpdatesOf(moves)) && PinnedOrKept(job.trunk, s, s1, UpdatesOf(moves)) &&
    Refreshed(job.trunk, s, s1, UpdatesOf(moves), |moves|) &&
    (s.git.Sound() && Anchored(s) ==> Anchored(s1))
  }

  /** What moving the survivors leaves: a grounded forest whatever the outcome; when no write fails and the shape is not
      refused, it succeeds iff every survivor can leave. */
  ghost predicate SurvivorsSettled(r: Outcome, linear: bool, job: Job, branches: seq<string>, s: Snapshot,
      s1: Snapshot, moves: seq<PlannedMove>)
  {
    (r == Failed(NotLinear) ==> linear) &&
    (Closed(branches, job.pm, job.trunk) ==> (r == Failed(NotLinear) <==> linear && !PlanFits(branches, job))) &&
    LeavesForest(branches, job, s1.parents) && (r.Done? ==> SurvivorsLeft(job, s, s1, moves)) &&
    (r == Failed(NotLinear) ==>
      s1 == s && !(Closed(branches, job.pm, job.trunk) && Linear(branches, job.pm, job.trunk))) &&
    (!Stopped(r) ==> (r.Done? <==> SurvivorsCanLeave(job.trunk, s, job.Planned())))
  }

  /** A plan made for the engine's forest as it stands. */
  ghost predicate IsCurrent(branches: seq<string>, pm: ParentMap, trunk: string, job: Job, entries: Entries,
      moves: seq<PlannedMove>)
  {
    IsJob(branches, pm, trunk, job) && IsPlan(job, entries, moves)
  }

  /** The first half of a cleanup: moves the survivors off the planned branches. */
  method ReparentSurvivors(eng: Engine, plan: DeletionPlan, moves: seq<PlannedMove>, ghost job: Job)
    returns (r: Outcome)
    modifies eng`parents, eng`revs
    ensures eng.reliable ==> !Faulted(r)
    ensures old(IsCurrent(eng.branches, eng.parents, eng.trunk, job, plan.branches, moves)) ==>
      SurvivorsSettled(r, eng.linearStacks, job, eng.branches, old(eng.Now()), eng.Now(), moves)
    ensures r.Done? ==> eng.parents == ApplyMoves(old(eng.parents), MovesOf(UpdatesOf(moves)))
    ensures r.Done? ==> PreservedKeepRanges(eng.trunk, old(eng.Now()), eng.Now(), UpdatesOf(moves))
    ensures r.Done? && eng.git.Sound() && old(Anchored(eng.Now())) ==> Anchored(eng.Now())
  {
    var removed := ListAny(plan.branches.Keys);
    ghost var current := IsCurrent(eng.branches, eng.parents, eng.trunk, job, plan.branches, moves);
    if current { MovesAre(eng.branches, job, eng.Now(), moves, removed); }
    r := ApplyReparentMoves(eng, moves, removed);
    assert current ==> LeavesForest(eng.branches, job, eng.parents);
  }

  /** What a successful cleanup leaves: exactly the selection is deleted; every parent is trunk, a survivor or a ghost
      that was kept; every branch owns the commits it did, or those from its fresh divergence point on; what is anchored
      stays so; and with no ghost and nothing vetoed a linear forest stays linear. */
  ghost predicate CleanedUp(job: Job, branches: seq<string>, s: Snapshot, branches': seq<string>, s': Snapshot,
      canDelete: string -> bool, deleted: seq<string>)
  {
    IsSelection(job.Chosen(), canDelete, deleted) && branches' == Without(branches, deleted) &&
    Cleaned(s.parents, job.trunk, job.Planned().Keys, deleted, s'.parents) &&
    ParentsSurvive(s'.parents, job.trunk, job.ghosts, deleted) &&
    CleanupKeepsRanges(job.trunk, s, s', job.Planned(), deleted) &&
    (s.git.Sound() ==> RebasedOwnFresh(job.trunk, s, s', job.Planned())) &&
    (s.git.Sound() && Anchored(s) ==> Anchored(s')) &&
    (Closed(branches, s.parents, job.trunk) && Elems(deleted) == job.statuses.Keys ==>
      (Linear(branches, s.parents, job.trunk) ==> Linear(branches', s'.parents, job.trunk)))
  }

  /** Every survivor can leave a planned parent, and every branch that stays below a ghost that goes is rooted. */
  ghost predicate CanClean(job: Job, s: Snapshot, canDelete: string -> bool) {
    SurvivorsCanLeave(job.trunk, s, job.Planned()) &&
    forall b :: b in s.parents && s.parents[b] in job.ghosts && Goes(job, canDelete, s.parents[b]) ==>
      Goes(job, canDelete, b) || Rooted(s, b)
  }

  /** What a cleanup does: on success what a cleanup should; whatever the outcome it leaves a grounded forest without
      new ghosts. Without ghosts a shape refusal changes nothing, and a linear forest is never refused. When the shape
      is not refused and no write or ref deletion fails, it succeeds iff the job can be done. */
  ghost predicate CleanupDoes(r: Outcome, linear: bool, job: Job, branches: seq<string>, s: Snapshot,
      branches': seq<string>,
      s': Snapshot, canDelete: string -> bool, deleted: seq<string>)
  {
    (r.Done? ==> CleanedUp(job, branches, s, branches', s', canDelete, deleted)) &&
    (r == Failed(NotLinear) ==> linear) &&
    (Closed(branches, s.parents, job.trunk) ==> (r == Failed(NotLinear) <==> linear && !PlanFits(branches, job))) &&
    Grounded(branches', s'.parents, job.trunk) && Ghosts(branches', s'.parents) <= job.ghosts &&
    (r == Failed(NotLinear) && Closed(branches, s.parents, job.trunk) ==>
      s' == s && !Linear(branches, s.parents, job.trunk)) &&
    (!Stopped(r) && r != Failed(RefsNotDeleted) && s.git.Sound() ==> (r.Done? <==> CanClean(job, s, canDelete)))
  }

  /** What carrying out any plan does, be it of another forest: its moves are made, what is deleted is gone and its
      children moved off it, ranges that no move recomputes are kept, and what is anchored stays so. */
  ghost predicate CarriedOut(trunk: string, branches: seq<string>, s: Snapshot, branches': seq<string>, s': Snapshot,
      moves: seq<PlannedMove>, deleted: seq<string>)
  {
    branches' == Without(branches, deleted) &&
    GoneEntirely(ApplyMoves(s.parents, MovesOf(UpdatesOf(moves))), trunk, deleted, s'.parents) &&
    (forall b :: b !in deleted && !HasRecompute(UpdatesOf(moves), b) ==>
      OwnRange(trunk, s, b) == OwnRange(trunk, s', b)) &&
    (s.git.Sound() && Anchored(s) ==> Anchored(s'))
  }

  /** Carries out a plan. */
  method ExecutePlan(eng: Engine, plan: DeletionPlan, moves: seq<PlannedMove>, canDelete: string -> bool,
      ghost job: Job)
    returns (r: Outcome, deleted: seq<string>)
    modifies plan, eng`branches, eng`parents, eng`revs, eng`git, eng`currentBranch
    ensures eng.reliable ==> !Faulted(r)
    ensures old(IsCurrent(eng.branches, eng.parents, eng.trunk, job, plan.branches, moves)) ==>
      CleanupDoes(r, eng.linearStacks, job, old(eng.branches), old(eng.Now()), eng.branches, eng.Now(), canDelete,
        deleted)
    ensures r.Done? ==>
      CarriedOut(eng.trunk, old(eng.branches), old(eng.Now()), eng.branches, eng.Now(), moves, deleted)
    ensures forall b :: b in deleted ==> b in old(plan.branches) && canDelete(b)
    ensures RefsGone(old(eng.branches), old(eng.git), deleted, eng.branches, eng.git) ||
      RefsGone(old(eng.branches), old(eng.git), [], eng.branches, eng.git)
  {
    deleted := [];
    ghost var current := IsCurrent(eng.branches, eng.parents, eng.trunk, job, plan.branches, moves);
    ghost var branches, start := eng.branches, eng.Now();
    r := ReparentSurvivors(eng, plan, moves, job);
    if r.Failed? { return; }
    ghost var mid := eng.Now();
    if current { JobStands(branches, start.parents, eng.trunk, job); }
    r, deleted := ExecuteDeletions(eng, plan, canDelete, job);
    if current {
      PhasesMeet(r, eng.linearStacks, job, branches, start, mid, eng.branches, eng.Now(), moves, canDelete, deleted);
    }
  }

  lemma CleanupSucceeds(r: Outcome, job: Job, branches: seq<string>, s: Snapshot, s1: Snapshot,
      moves: seq<PlannedMove>, canDelete: string -> bool)
    requires IsJob(branches, s.parents, job.trunk, job) && MovesFor(job.pm, job.Planned(), job.pm.Keys, moves)
    requires SurvivorsLeft(job, s, s1, moves) && SurvivorsCanLeave(job.trunk, s, job.Planned())
    requires r != Failed(TrunkInBatch) && (job.ghosts == {} ==> r.Done? || r == Failed(RefsNotDeleted))
    requires !Refused(r) && r != Failed(NoMetadataCommit) ==> (r.Done? <==> OrphansRooted(job, canDelete, s1))
    ensures !Stopped(r) && r != Failed(RefsNotDeleted) && s.git.Sound() ==> (r.Done? <==> CanClean(job, s, canDelete))
    ensures r == Failed(NotLinear) ==> !Closed(branches, s.parents, job.trunk)
  {
    JobStands(branches, s.parents, job.trunk, job);
    if s.git.Sound() { OrphansThroughMoves(job, s, s1, moves, canDelete); }
  }

  /** Both phases together do what a cleanup does. */
  lemma PhasesMeet(r: Outcome, linear: bool, job: Job, branches: seq<string>, s: Snapshot, s1: Snapshot,
      branches': seq<string>,
      s': Snapshot, moves: seq<PlannedMove>, canDelete: string -> bool, deleted: seq<string>)
    requires IsJob(branches, s.parents, job.trunk, job) && MovesFor(job.pm, job.Planned(), job.pm.Keys, moves)
    requires SurvivorsSettled(Done, linear, job, branches, s, s1, moves)
    requires SelectionGone(r, job, s1, branches', s', canDelete, deleted)
    requires r.Done? ==> branches' == Without(branches, deleted) && SurvivorsKeepRanges(job.trunk, s1, s', deleted)
    requires (Anchored(s1) ==> Anchored(s')) && (r == Failed(NotLinear) ==> linear)
    ensures CleanupDoes(r, linear, job, branches, s, branches', s', canDelete, deleted)
  {
    CleanupSucceeds(r, job, branches, s, s1, moves, canDelete);
    if r.Done? { CleanedUpAfter(job, branches, s, s1, branches', s', moves, canDelete, deleted); }
  }

  /** Both phases together do what a cleanup should. */
  lemma CleanedUpAfter(job: Job, branches: seq<string>, s: Snapshot, s1: Snapshot, branches': seq<string>, s2: Snapshot,
      moves: seq<PlannedMove>, canDelete: string -> bool, deleted: seq<string>)
    requires IsJob(branches, s.parents, job.trunk, job) && MovesFor(job.pm, job.Planned(), job.pm.Keys, moves)
    requires SurvivorsLeft(job, s, s1, moves) && SurvivorsKeepRanges(job.trunk, s1, s2, deleted)
    requires IsSelection(job.Chosen(), canDelete, deleted) && branches' == Without(branches, deleted)
    requires Cleaned(job.pm, job.trunk, job.Planned().Keys, deleted, s2.parents)
    requires ParentsSurvive(s2.parents, job.trunk, job.ghosts, deleted)
    requires Anchored(s1) ==> Anchored(s2)
    ensures CleanedUp(job, branches, s, branches', s2, canDelete, deleted)
  {
    JobStands(branches, s.parents, job.trunk, job);
    forall b | b in deleted && b in s.parents ensures b in job.Planned() { assert b in job.Chosen(); }
    CleanupRanges(job.trunk, s, s1, s2, job.Planned(), moves, deleted);
    if Closed(branches, s.parents, job.trunk) && Elems(deleted) == job.statuses.Keys {
      if Linear(branches, s.parents, job.trunk) {
        FullCleanupIsLinear(branches, job.pm, job.trunk, job.statuses, moves, deleted, s2.parents);
      }
    }
  }

  /** Once the survivors have left, what stays and hangs from what goes is rooted iff the children of ghosts were
      before: whoever the moves took to a ghost is pinned or recomputed, and so rooted. */
  lemma OrphansThroughMoves(job: Job, s: Snapshot, s1: Snapshot, moves: seq<PlannedMove>, canDelete: string -> bool)
    requires job.Valid() && s.parents == job.pm && s.git.Sound() && SurvivorsLeft(job, s, s1, moves)
    requires MovesFor(job.pm, job.Planned(), job.pm.Keys, moves) && SurvivorsCanLeave(job.trunk, s, job.Planned())
    ensures OrphansRooted(job, canDelete, s1) <==> CanClean(job, s, canDelete)
  {
    forall b | b in job.pm && !Goes(job, canDelete, b)
      ensures (job.pm[b] in job.ghosts && Goes(job, canDelete, job.pm[b]) ==> Rooted(s, b)) <==>
        (Goes(job, canDelete, s1.parents[b]) ==> Rooted(s1, b))
    {
      if job.pm[b] in job.Planned() && b !in job.Planned() {
        MovedAreRooted(job, s, s1, moves, b);
        assert job.pm[b] !in job.ghosts;
      } else {
        UnmovedStay(job, s, s1, moves, b);
        if Goes(job, canDelete, s1.parents[b]) && s1.parents[b] !in job.ghosts {
          ChildOfPlanned(job, s1.parents, b);
          PassesLocally(job.Chosen(), canDelete, s1.parents[b]);
        }
      }
    }
  }

  lemma MovedAreRooted(job: Job, s: Snapshot, s1: Snapshot, moves: seq<PlannedMove>, b: string)
    requires s.parents == job.pm && s.git.Sound() && s1.git == s.git && b in job.pm
    requires MovesFor(job.pm, job.Planned(), job.pm.Keys, moves) && SurvivorsCanLeave(job.trunk, s, job.Planned())
    requires b !in job.Planned() && job.pm[b] in job.Planned()
    requires PinnedOrKept(job.trunk, s, s1, UpdatesOf(moves))
    requires Refreshed(job.trunk, s, s1, UpdatesOf(moves), |moves|)
    ensures Rooted(s1, b)
  {
    var i :| 0 <= i < |moves| && moves[i].branchName == b;
    assert moves[i] in moves && CanLeave(job.trunk, s, job.Planned(), b);
    if moves[i].preserveDivergence {
      MoversMatch(moves, b);
      if HasRecompute(UpdatesOf(moves), b) { RecomputedAreRebased(job.pm, job.Planned(), moves, b); }
    } else {
      assert UpdatesOf(moves)[i].mode == Recompute;
    }
  }

  /** A branch that no planned move takes keeps its parent and its revision. */
  lemma UnmovedStay(job: Job, s: Snapshot, s1: Snapshot, moves: seq<PlannedMove>, b: string)
    requires job.Valid() && s.parents == job.pm && s1.git == s.git && b in job.pm
    requires MovesFor(job.pm, job.Planned(), job.pm.Keys, moves)
    requires b in job.Planned() || job.pm[b] !in job.Planned()
    requires Reparented(job.pm, job.Planned().Keys, s1.parents) && PinnedOrKept(job.trunk, s, s1, UpdatesOf(moves))
    ensures s1.parents[b] == job.pm[b] && (Rooted(s1, b) <==> Rooted(s, b))
  {
    NearestStep(job.pm, job.Planned().Keys, job.pm[b], s1.parents[b]);
    MoversMatch(moves, b);
    if HasRecompute(UpdatesOf(moves), b) { RecomputedAreRebased(job.pm, job.Planned(), moves, b); }
  }

  /** Carries out a plan made earlier, or, with a filter, one made anew for the planned branches the filter lets
      through; ghosts are marked again,
        the filter does not keep them. With a filter it does what a cleanup does whatever
      the forest the earlier plan was made for; without one it does if that forest is still the engine's, and in any
      case carries the plan out. */
  method ExecuteBranchDeletions(eng: Engine, plan: DeletionPlan, moves: seq<PlannedMove>, planned: Statuses,
      ghostStatus: string -> DeletionStatus, filter: Option<set<string>>, canDelete: string -> bool)
    returns (r: Outcome, deleted: seq<string>, ghost job: Job)
    requires Grounded(eng.branches, eng.parents, eng.trunk) && eng.trunk !in planned && "" !in planned
    modifies plan, eng`branches, eng`parents, eng`revs, eng`git, eng`currentBranch
    ensures eng.reliable ==> !Faulted(r)
    ensures job.trunk == eng.trunk && job.pm == old(eng.parents) && job.ghosts == old(Ghosts(eng.branches, eng.parents))
    ensures filter.None? ==> job.statuses == planned
    ensures filter.Some? ==> job.statuses.Keys == planned.Keys * filter.value + job.ghosts
    ensures filter.Some? ==> forall b :: b in planned && b in filter.value ==> job.statuses[b] == planned[b]
    ensures filter.Some? ==> forall b :: b in job.ghosts && !(b in planned && b in filter.value) ==>
      job.statuses[b] == ghostStatus(b)
    ensures filter.Some? ==> forall b :: b in deleted ==> b in job.ghosts || (b in planned && b in filter.value)
    ensures forall b :: b in deleted ==> canDelete(b)
    ensures RefsGone(old(eng.branches), old(eng.git), deleted, eng.branches, eng.git) ||
      RefsGone(old(eng.branches), old(eng.git), [], eng.branches, eng.git)
    ensures (filter.Some? || old(IsCurrent(eng.branches, eng.parents, eng.trunk, job, plan.branches, moves))) ==>
      CleanupDoes(r, eng.linearStacks, job, old(eng.branches), old(eng.Now()), eng.branches, eng.Now(), canDelete,
        deleted)
    ensures filter.None? && r.Done? ==>
      CarriedOut(eng.trunk, old(eng.branches), old(eng.Now()), eng.branches, eng.Now(), moves, deleted)
    ensures filter.None? ==> forall b :: b in deleted ==> b in old(plan.branches) && canDelete(b)
  {
    if filter.None? {
      job := Job(eng.trunk, eng.parents, Ghosts(eng.branches, eng.parents), planned);
      r, deleted := ExecutePlan(eng, plan, moves, canDelete, job);
    } else {
      r, deleted, job := ExecuteFiltered(eng, planned, filter.value, ghostStatus, canDelete);
    }
  }

  /** Plans anew for the planned branches that the filter lets through, and carries that out. */
  method ExecuteFiltered(eng: Engine, planned: Statuses, filter: set<string>, ghostStatus: string -> DeletionStatus,
      canDelete: string -> bool)
    returns (r: Outcome, deleted: seq<string>, ghost job: Job)
    requires Grounded(eng.branches, eng.parents, eng.trunk) && eng.trunk !in planned && "" !in planned
    modifies eng`branches, eng`parents, eng`revs, eng`git, eng`currentBranch
    ensures eng.reliable ==> !Faulted(r)
    ensures job.trunk == eng.trunk && job.pm == old(eng.parents) && job.ghosts == old(Ghosts(eng.branches, eng.parents))
    ensures AddsGhosts(job.statuses, Filtered(planned, filter), job.ghosts, ghostStatus)
    ensures CleanupDoes(r, eng.linearStacks, job, old(eng.branches), old(eng.Now()), eng.branches, eng.Now(), canDelete,
      deleted)
    ensures forall b :: b in deleted ==> b in job.statuses && canDelete(b)
    ensures RefsGone(old(eng.branches), old(eng.git), deleted, eng.branches, eng.git) ||
      RefsGone(old(eng.branches), old(eng.git), [], eng.branches, eng.git)
  {
    var plan, moves, all;
    plan, moves, all, job := PlanAnew(eng, Filtered(planned, filter), ghostStatus);
    r, deleted := ExecutePlan(eng, plan, moves, canDelete, job);
  }

  /** The statuses are those given, and those of the ghosts not among them. */
  ghost predicate AddsGhosts(all: Statuses, statuses: Statuses, ghosts: set<string>,
      ghostStatus: string -> DeletionStatus)
  {
    all.Keys == statuses.Keys + ghosts && (forall b :: b in statuses ==> all[b] == statuses[b]) &&
    forall g :: g in ghosts && g !in statuses ==> all[g] == ghostStatus(g)
  }

  /** Plans for the forest as it stands. */
  method PlanAnew(eng: Engine, statuses: Statuses, ghostStatus: string -> DeletionStatus)
    returns (plan: DeletionPlan, moves: seq<PlannedMove>, all: Statuses, ghost job: Job)
    requires Grounded(eng.branches, eng.parents, eng.trunk) && eng.trunk !in statuses && "" !in statuses
    ensures fresh(plan) && IsCurrent(eng.branches, eng.parents, eng.trunk, job, plan.branches, moves)
    ensures job == Job(eng.trunk, eng.parents, Ghosts(eng.branches, eng.parents), all)
    ensures AddsGhosts(all, statuses, Ghosts(eng.branches, eng.parents), ghostStatus)
  {
    ghost var ghosts := Ghosts(eng.branches, eng.parents);
    GroundedIsSeen(eng.branches, eng.parents, eng.trunk);
    GhostsTakenOut(statuses, ghosts, ghostStatus);
    plan, moves, all := BuildDeletionPlan(eng.branches, eng.parents, eng.trunk, statuses, ghostStatus);
    job := Job(eng.trunk, eng.parents, ghosts, all);
  }

  /** Plans a cleanup after a set of statuses and carries it out. */
  method Cleanup(eng: Engine, statuses: Statuses, ghostStatus: string -> DeletionStatus, canDelete: string -> bool)
    returns (r: Outcome, deleted: seq<string>, ghost job: Job)
    requires Grounded(eng.branches, eng.parents, eng.trunk) && eng.trunk !in statuses && "" !in statuses
    modifies eng`branches, eng`parents, eng`revs, eng`git, eng`currentBranch
    ensures eng.reliable ==> !Faulted(r)
    ensures job.trunk == eng.trunk && job.pm == old(eng.parents) && job.ghosts == old(Ghosts(eng.branches, eng.parents))
    ensures AddsGhosts(job.statuses, statuses, job.ghosts, ghostStatus)
    ensures CleanupDoes(r, eng.linearStacks, job, old(eng.branches), old(eng.Now()), eng.branches, eng.Now(), canDelete,
      deleted)
  {
    var plan, moves, all;
    plan, moves, all, job := PlanAnew(eng, statuses, ghostStatus);
    ghost var again;
    r, deleted, again := ExecuteBranchDeletions(eng, plan, moves, all, ghostStatus, None, canDelete);
    assert again == job;
  }
}
