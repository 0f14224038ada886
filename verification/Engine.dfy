/** The engine's operations that change the forest: setting parents, batch reparenting, and deletion. */
module Engine {
  import opened Wrappers
  import opened Names
  import opened Forest
  import opened Ancestors
  import opened LinearShape
  import opened StackGraph
  import opened Divergence

  datatype Failure =
    | SelfParent | NotLinear | NoDivergencePoint | NotAnAncestor | NoMergeBase
    | TrunkInBatch | NoMetadataCommit | GitFailed | RefsNotDeleted

  datatype Outcome = Done | Failed(why: Failure)

  /** Deletion was refused before any ref was deleted. */
  predicate Refused(r: Outcome) {
    r.Failed? && (r.why.TrunkInBatch? || r.why.NotLinear? || r.why.RefsNotDeleted?)
  }

  /** The environment failed: a write, a checkout or a ref deletion did not go through. */
  predicate Faulted(r: Outcome) {
    r == Failed(NoMetadataCommit) || r == Failed(RefsNotDeleted)
  }

  datatype DivergenceMode = Preserve | Recompute

  datatype ParentUpdate = ParentUpdate(branch: string, newParent: string, mode: DivergenceMode)

  datatype PriorParent = PriorParent(branch: string, revision: string)

  function MovesOf(updates: seq<ParentUpdate>): (r: seq<Move>)
    ensures |r| == |updates| && forall i :: 0 <= i < |r| ==> r[i] == Move(updates[i].branch, updates[i].newParent)
  {
    seq(|updates|, i requires 0 <= i < |updates| => Move(updates[i].branch, updates[i].newParent))
  }

  ghost predicate HasRecompute(updates: seq<ParentUpdate>, b: string) {
    exists u :: u in updates && u.branch == b && u.mode == Recompute
  }

  /** The parents a batch deletion knows about: those of its members, trunk where none is recorded. */
  function BatchParents(pm: ParentMap, trunk: string, batch: seq<string>): ParentMap {
    map b | b in batch :: ParentOrTrunk(pm, trunk, b)
  }

  /** The revisions once every mover is pinned at its captured divergence point. */
  function PinRevisions(revs: Revisions, moves: seq<Move>, divPoints: Revisions): Revisions {
    if moves == [] then revs
    else
      var b := moves[|moves| - 1].branch;
      PinRevisions(revs, moves[..|moves| - 1], divPoints)[b := Stored(divPoints, b)]
  }

  lemma {:induction false} PinRevisionsValue(revs: Revisions, moves: seq<Move>, divPoints: Revisions, b: string)
    ensures Stored(PinRevisions(revs, moves, divPoints), b) ==
      if IsMover(moves, b) then Stored(divPoints, b) else Stored(revs, b)
  {
    if moves != [] {
      var last, init := moves[|moves| - 1], moves[..|moves| - 1];
      assert moves == init + [last];
      MoverAppend(init, last);
      PinRevisionsValue(revs, init, divPoints, b);
    }
  }

  /** The captured divergence points are the bases of the ranges the branches own. */
  ghost predicate Captured(trunk: string, s: Snapshot, divPoints: Revisions) {
    forall b :: b in divPoints ==> OwnRange(trunk, s, b).Some? && OwnRange(trunk, s, b).value.base == divPoints[b]
  }

  /** Moving branches pinned at the divergence points they had keeps every branch's own commits, movers or not. */
  lemma PinnedRanges(trunk: string, s: Snapshot, moves: seq<Move>, divPoints: Revisions)
    requires Captured(trunk, s, divPoints) && forall m :: m in moves ==> Stored(divPoints, m.branch) != ""
    ensures var s' := Snapshot(s.git, ApplyMoves(s.parents, moves), PinRevisions(s.revs, moves, divPoints));
      SameRanges(trunk, s, s') &&
      (Anchored(s) && (forall m :: m in moves ==> AtTip(s.git, Stored(divPoints, m.branch), m.branch)) ==> Anchored(s'))
  {
    var s' := Snapshot(s.git, ApplyMoves(s.parents, moves), PinRevisions(s.revs, moves, divPoints));
    forall b ensures OwnRange(trunk, s, b) == OwnRange(trunk, s', b)
      ensures Anchored(s) && (forall m :: m in moves ==> AtTip(s.git, Stored(divPoints, m.branch), m.branch)) ==>
        (Stored(s'.revs, b) != "" ==> AtTip(s.git, s'.revs[b], b))
    {
      ApplyMovesValue(s.parents, moves, b);
      PinRevisionsValue(s.revs, moves, divPoints, b);
    }
  }

  /** The divergence points captured for the branches of a batch: the bases of the ranges that can be read. */
  function CapturedPoints(trunk: string, s: Snapshot, names: set<string>): (r: Revisions)
    ensures Captured(trunk, s, r) && forall b :: b in r <==> b in names && OwnRange(trunk, s, b).Some?
  {
    map b | b in names && OwnRange(trunk, s, b).Some? :: OwnRange(trunk, s, b).value.base
  }

  function Movers(moves: seq<Move>): set<string> {
    set m | m in moves :: m.branch
  }

  /** Branches that no update recomputes: pinned if already moved, otherwise as before. */
  ghost predicate Kept(updates: seq<ParentUpdate>, moved: seq<Move>, divPoints: Revisions, before: Revisions,
      revs: Revisions) {
    forall b :: !HasRecompute(updates, b) ==>
      if IsMover(moved, b) then Stored(revs, b) == Stored(divPoints, b) != "" else Stored(revs, b) == Stored(before, b)
  }

  lemma KeptAppend(updates: seq<ParentUpdate>, moved: seq<Move>, u: ParentUpdate, divPoints: Revisions,
                   before: Revisions, revs: Revisions, revs': Revisions)
    requires Kept(updates, moved, divPoints, before, revs) && u in updates
    requires forall b :: b != u.branch ==> Stored(revs', b) == Stored(revs, b)
    requires u.mode == Preserve ==> Stored(revs', u.branch) == Stored(divPoints, u.branch) != ""
    ensures Kept(updates, moved + [Move(u.branch, u.newParent)], divPoints, before, revs')
  {
    MoverAppend(moved, Move(u.branch, u.newParent));
  }

  // ---------- Recomputed divergence points ----------

  ghost predicate OncePerBranch(updates: seq<ParentUpdate>) {
    forall i, j :: 0 <= i < j < |updates| ==> updates[i].branch != updates[j].branch
  }

  /** The branches still to be updated are as they were. */
  ghost predicate Waiting(s: Snapshot, now: Snapshot, updates: seq<ParentUpdate>, i: nat) {
    forall j :: i <= j < |updates| ==>
      Parent(now.parents, updates[j].branch) == Parent(s.parents, updates[j].branch) &&
      Stored(now.revs, updates[j].branch) == Stored(s.revs, updates[j].branch)
  }

  /** Each of the first i updates that recomputes left the revision its branch's old parent and revision call for. */
  ghost predicate Refreshed(trunk: string, s: Snapshot, now: Snapshot, updates: seq<ParentUpdate>, i: nat) {
    forall j :: 0 <= j < i && j < |updates| && updates[j].mode == Recompute ==>
      s.git.MergeBase(updates[j].branch, updates[j].newParent).Some? &&
      Stored(now.revs, updates[j].branch) == FreshRevision(trunk, s, updates[j].branch, updates[j].newParent)
  }

  /** When no branch is updated twice: the first i updates are done and the rest wait. */
  ghost predicate UpTo(trunk: string, s: Snapshot, now: Snapshot, updates: seq<ParentUpdate>, i: nat) {
    OncePerBranch(updates) ==> Waiting(s, now, updates, i) && Refreshed(trunk, s, now, updates, i)
  }

  lemma UpToNext(trunk: string, s: Snapshot, before: Snapshot, after: Snapshot, updates: seq<ParentUpdate>, i: nat)
    requires i < |updates| && s.git == before.git && UpTo(trunk, s, before, updates, i)
    requires after.parents == before.parents[updates[i].branch := updates[i].newParent]
    requires forall b :: b != updates[i].branch ==> Stored(after.revs, b) == Stored(before.revs, b)
    requires updates[i].mode == Recompute ==> (s.git.MergeBase(updates[i].branch, updates[i].newParent).Some? &&
      Stored(after.revs, updates[i].branch) == FreshRevision(trunk, before, updates[i].branch, updates[i].newParent))
    ensures UpTo(trunk, s, after, updates, i + 1)
  {
  }

  /** The first i updates of a batch have been applied. */
  ghost predicate Updated(trunk: string, s: Snapshot, now: Snapshot, updates: seq<ParentUpdate>, moves: seq<Move>,
      divPoints: Revisions, i: nat)
    requires i <= |moves|
  {
    now.git == s.git && now.parents == ApplyMoves(s.parents, moves[..i]) &&
      Kept(updates, moves[..i], divPoints, s.revs, now.revs) &&
    UpTo(trunk, s, now, updates, i)
  }

  lemma UpdatedNext(trunk: string, s: Snapshot, before: Snapshot, after: Snapshot, updates: seq<ParentUpdate>,
      moves: seq<Move>, divPoints: Revisions, i: nat)
    requires moves == MovesOf(updates) && i < |moves| && Updated(trunk, s, before, updates, moves, divPoints, i)
    requires after.git == s.git && after.parents == before.parents[updates[i].branch := updates[i].newParent]
    requires forall b :: b != updates[i].branch ==> Stored(after.revs, b) == Stored(before.revs, b)
    requires updates[i].mode == Preserve ==>
      Stored(after.revs, updates[i].branch) == Stored(divPoints, updates[i].branch) != ""
    requires updates[i].mode == Recompute ==> (s.git.MergeBase(updates[i].branch, updates[i].newParent).Some? &&
      Stored(after.revs, updates[i].branch) == FreshRevision(trunk, before, updates[i].branch, updates[i].newParent))
    ensures Updated(trunk, s, after, updates, moves, divPoints, i + 1)
  {
    UpToNext(trunk, s, before, after, updates, i);
    assert moves[..i + 1] == moves[..i] + [moves[i]] && moves[..i + 1][..i] == moves[..i];
    KeptAppend(updates, moves[..i], updates[i], divPoints, s.revs, before.revs, after.revs);
  }

  function RecomputesOf(moves: seq<Move>): (r: seq<ParentUpdate>)
    ensures |r| == |moves| &&
      forall i :: 0 <= i < |r| ==> r[i] == ParentUpdate(moves[i].branch, moves[i].newParent, Recompute)
  {
    seq(|moves|, i requires 0 <= i < |moves| => ParentUpdate(moves[i].branch, moves[i].newParent, Recompute))
  }

  /** The first n moves can be made one after the other, each judged in the graph the ones before it leave. */
  ghost predicate CanRecompute(linear: bool, trunk: string, branches: seq<string>, s: Snapshot, moves: seq<Move>,
      n: nat)
  {
    forall j :: 0 <= j < n && j < |moves| ==> CanRecomputeNext(linear, trunk, branches, s, moves, j)
  }

  /** The j-th move fits once the ones before it are made. */
  ghost predicate CanRecomputeNext(linear: bool, trunk: string, branches: seq<string>, s: Snapshot, moves: seq<Move>,
      j: nat)
    requires j < |moves|
  {
    var m := moves[j];
    m.branch != m.newParent &&
    Fits(linear, trunk, branches, Snapshot(s.git, ApplyMoves(s.parents, moves[..j]), s.revs), m.branch, m.newParent)
  }

  predicate WorthRecording(b: string, prior: PriorParent) {
    prior.branch != "" && prior.revision != "" && prior.branch != b
  }

  /** A branch whose prior parent and revision have been recorded, if they are worth recording. */
  function WithPrior(s: Snapshot, b: string, prior: PriorParent): Snapshot {
    if WorthRecording(b, prior) then Snapshot(s.git, s.parents[b := prior.branch], s.revs[b := prior.revision]) else s
  }

  /** The shape rule lets b hang from p, and git finds a merge base for the two. */
  ghost predicate Fits(linear: bool, trunk: string, branches: seq<string>, s: Snapshot, b: string, p: string) {
    (linear ==> LinearAfter(trunk, branches, s.parents, [Move(b, p)], [])) && s.git.MergeBase(b, p).Some?
  }

  /** A branch with no history in common with its new parent cannot be tracked under it; the prior revision is left
      behind, and the branch does not descend from it. */
  lemma PriorLeftBehind()
    ensures var s := Snapshot(UnrelatedGit(), map[], map[]);
      var s' := WithPrior(s, "b", PriorParent("old", "c9"));
      s.git.Sound() && Anchored(s) && !Fits(false, "t", ["t", "b"], s', "b", "t") && !Anchored(s')
  {
    var s := Snapshot(UnrelatedGit(), map[], map[]);
    var s' := WithPrior(s, "b", PriorParent("old", "c9"));
    assert |"old"| != |"b"| && "c9"[1] != "c1"[1];
    assert Stored(s'.revs, "b") == "c9" && !AtTip(s'.git, "c9", "b");
  }

  function UnrelatedGit(): Git {
    Git(map["t" := "c0", "b" := "c1"], (a, b) => a == b, (a, b) => None, (a, b) => false, (a, b) => false, b => false)
  }

  lemma KeptRanges(trunk: string, s: Snapshot, revs': Revisions, updates: seq<ParentUpdate>, moves: seq<Move>,
      divPoints: Revisions)
    requires moves == MovesOf(updates) && Kept(updates, moves, divPoints, s.revs, revs') &&
      Captured(trunk, s, divPoints)
    ensures var s' := Snapshot(s.git, ApplyMoves(s.parents, moves), revs');
      PinnedOrKept(trunk, s, s', updates) &&
      forall b :: !HasRecompute(updates, b) ==> OwnRange(trunk, s, b) == OwnRange(trunk, s', b)
  {
    forall b | !HasRecompute(updates, b)
      ensures OwnRange(trunk, s, b) == OwnRange(trunk, Snapshot(s.git, ApplyMoves(s.parents, moves), revs'), b)
    {
      ApplyMovesValue(s.parents, moves, b);
    }
  }

  /** What is left once the refs and metadata of a batch are deleted. */
  function SnapshotWithout(s: Snapshot, batch: seq<string>): Snapshot {
    Snapshot(s.git.(tips := Except(s.git.tips, batch)), Except(s.parents, batch), Except(s.revs, batch))
  }

  /** m sends a surviving child of the batch to the first survivor above it, or to trunk when there is none. */
  ghost predicate IsDeletionMove(pm: ParentMap, trunk: string, batch: seq<string>, m: Move) {
    var up := BatchParents(pm, trunk, batch);
    m.branch in pm && m.branch !in batch && pm[m.branch] in batch && m.newParent !in batch &&
    if Escapes(up, Elems(batch), up[pm[m.branch]]) then IsNearest(up, Elems(batch), up[pm[m.branch]], m.newParent)
      else m.newParent == trunk
  }

  /** On a forest the walk over the batch's own parents finds what the walk over all parents finds. */
  lemma {:induction false} BatchWalk(pm: ParentMap, trunk: string, rank: Rank, batch: seq<string>, b: string, r: string)
    requires Ranked(pm, trunk, rank) && trunk !in batch && (b == trunk || b in pm)
    ensures IsNearest(BatchParents(pm, trunk, batch), Elems(batch), b, r) <==> IsNearest(pm, Elems(batch), b, r)
    decreases if b in pm then 1 + rank[b] else 0
  {
    NearestStep(pm, Elems(batch), b, r);
    NearestStep(BatchParents(pm, trunk, batch), Elems(batch), b, r);
    if b in batch { BatchWalk(pm, trunk, rank, batch, pm[b], r); }
  }

  lemma PlannedMoves(pm: ParentMap, trunk: string, batch: seq<string>, moves: seq<Move>)
    requires WellFormed(pm, trunk) && trunk !in batch && MovesTheChildren(pm, batch, moves)
    requires forall m :: m in moves ==> IsDeletionMove(pm, trunk, batch, m)
    ensures DeletionMoves(pm, Elems(batch), moves)
  {
    DepthsRank(pm, trunk);
    var up, rank := BatchParents(pm, trunk, batch), Depths(pm, trunk);
    forall m | m in moves ensures IsNearest(pm, Elems(batch), pm[m.branch], m.newParent) {
      var d := pm[m.branch];
      var r := ForestNearest(pm, trunk, rank, Elems(batch), pm[d]);
      BatchWalk(pm, trunk, rank, batch, pm[d], r);
      assert Escapes(up, Elems(batch), up[d]);
      BatchWalk(pm, trunk, rank, batch, pm[d], m.newParent);
      NearestStep(pm, Elems(batch), d, m.newParent);
    }
  }

  /** The moves of a deletion: every surviving child of the batch is sent where it should go, and nothing else moves. */
  ghost predicate AreDeletionMoves(pm: ParentMap, trunk: string, batch: seq<string>, moves: seq<Move>) {
    MovesTheChildren(pm, batch, moves) && forall m :: m in moves ==> IsDeletionMove(pm, trunk, batch, m)
  }

  /** The shape rule lets the children of a batch go where its deletion sends them. */
  ghost predicate DeletionFits(branches: seq<string>, pm: ParentMap, trunk: string, batch: seq<string>) {
    forall moves :: AreDeletionMoves(pm, trunk, batch, moves) ==>
      moves == [] || LinearAfter(trunk, branches, pm, moves, batch)
  }

  lemma DeletionTarget(pm: ParentMap, trunk: string, batch: seq<string>, m: Move, m': Move)
    requires IsDeletionMove(pm, trunk, batch, m) && IsDeletionMove(pm, trunk, batch, m') && m.branch == m'.branch
    ensures m == m'
  {
    var up := BatchParents(pm, trunk, batch);
    if Escapes(up, Elems(batch), up[pm[m.branch]]) {
      NearestUnique(up, Elems(batch), up[pm[m.branch]], m.newParent, m'.newParent);
    }
  }

  /** However a deletion lists its moves, the shape rule judges them alike. */
  lemma DeletionVerdict(branches: seq<string>, pm: ParentMap, trunk: string, batch: seq<string>, moves: seq<Move>)
    requires AreDeletionMoves(pm, trunk, batch, moves)
    ensures DeletionFits(branches, pm, trunk, batch) <==> moves == [] || LinearAfter(trunk, branches, pm, moves, batch)
  {
    forall m, m' | m in moves && m' in moves && m.branch == m'.branch ensures m == m' {
      DeletionTarget(pm, trunk, batch, m, m');
    }
    if moves == [] || LinearAfter(trunk, branches, pm, moves, batch) {
      forall others | AreDeletionMoves(pm, trunk, batch, others)
        ensures others == [] || LinearAfter(trunk, branches, pm, others, batch)
      {
        SameDeletionMoves(pm, trunk, batch, moves, others);
        MoveOrderIrrelevant(trunk, branches, pm, moves, others, batch);
      }
    }
  }

  lemma SameDeletionMoves(pm: ParentMap, trunk: string, batch: seq<string>, moves: seq<Move>, others: seq<Move>)
    requires AreDeletionMoves(pm, trunk, batch, moves)
    requires AreDeletionMoves(pm, trunk, batch, others)
    ensures forall m :: m in moves <==> m in others
    ensures moves == [] <==> others == []
  {
    forall m | m in moves ensures m in others {
      assert IsMover(others, m.branch);
      var m' :| m' in others && m'.branch == m.branch;
      DeletionTarget(pm, trunk, batch, m, m');
    }
    forall m | m in others ensures m in moves {
      assert IsMover(moves, m.branch);
      var m' :| m' in moves && m'.branch == m.branch;
      DeletionTarget(pm, trunk, batch, m, m');
    }
    if moves != [] { assert moves[0] in others; }
    if others != [] { assert others[0] in moves; }
  }

  /** In a closed forest the rule lets a deletion through iff it moves nothing or leaves a linear graph. */
  lemma DeletionFitsIff(branches: seq<string>, pm: ParentMap, trunk: string, batch: seq<string>, moves: seq<Move>)
    requires Closed(branches, pm, trunk) && WellFormed(pm, trunk) && trunk !in batch
    requires AreDeletionMoves(pm, trunk, batch, moves)
    ensures DeletionFits(branches, pm, trunk, batch) <==>
      Stranded(pm, batch) == {} || Linear(Without(branches, batch), ParentsAfter(pm, moves, batch), trunk)
  {
    DeletionVerdict(branches, pm, trunk, batch, moves);
    SurvivingChildrenAre(pm, batch, moves);
    DeletionStays(branches, pm, trunk, batch, moves);
    VerdictIsExact(trunk, branches, pm, moves, batch);
    if moves != [] { assert moves[0].branch in Movers(moves); }
  }

  lemma DeletionStays(branches: seq<string>, pm: ParentMap, trunk: string, batch: seq<string>, moves: seq<Move>)
    requires Closed(branches, pm, trunk) && WellFormed(pm, trunk) && trunk !in batch
    requires AreDeletionMoves(pm, trunk, batch, moves)
    ensures Staying(branches, moves, batch) && OneTarget(moves)
  {
    DepthsRank(pm, trunk);
    PlannedMoves(pm, trunk, batch, moves);
    forall m | m in moves ensures m.newParent in branches && m.newParent !in batch {
      var r := ForestNearest(pm, trunk, Depths(pm, trunk), Elems(batch), pm[m.branch]);
      NearestUnique(pm, Elems(batch), pm[m.branch], r, m.newParent);
    }
    forall m, m' | m in moves && m' in moves && m.branch == m'.branch ensures m == m' {
      DeletionTarget(pm, trunk, batch, m, m');
    }
  }

  /** The moves of a single deletion: every child of b is sent to the parent of b, and nothing else moves. */
  ghost predicate AreHandovers(pm: ParentMap, trunk: string, b: string, moves: seq<Move>) {
    MovesTheChildren(pm, [b], moves) && forall m :: m in moves ==> m.newParent == ParentOrTrunk(pm, trunk, b)
  }

  /** The shape rule lets the children of b go to its parent. */
  ghost predicate HandoverFits(branches: seq<string>, pm: ParentMap, trunk: string, b: string) {
    forall moves :: AreHandovers(pm, trunk, b, moves) ==> moves == [] || LinearAfter(trunk, branches, pm, moves, [b])
  }

  lemma HandoverVerdict(branches: seq<string>, pm: ParentMap, trunk: string, b: string, moves: seq<Move>)
    requires AreHandovers(pm, trunk, b, moves)
    ensures HandoverFits(branches, pm, trunk, b) <==> moves == [] || LinearAfter(trunk, branches, pm, moves, [b])
  {
    if moves == [] || LinearAfter(trunk, branches, pm, moves, [b]) {
      forall others | AreHandovers(pm, trunk, b, others)
        ensures others == [] || LinearAfter(trunk, branches, pm, others, [b])
      {
        forall m ensures m in moves <==> m in others {
          if m in moves { assert IsMover(others, m.branch); }
          if m in others { assert IsMover(moves, m.branch); }
        }
        if others != [] { assert others[0] in moves; }
        MoveOrderIrrelevant(trunk, branches, pm, moves, others, [b]);
      }
    }
  }

  /** The branches whose parent a batch deletes. */
  ghost function Stranded(pm: ParentMap, batch: seq<string>): set<string> {
    set b | b in pm && b !in batch && pm[b] in batch
  }

  lemma SurvivingChildrenAre(pm: ParentMap, batch: seq<string>, moves: seq<Move>)
    requires MovesTheChildren(pm, batch, moves)
    ensures Movers(moves) == Stranded(pm, batch)
    ensures Stranded(pm, batch) == {} ==> moves == []
  {
    forall b ensures b in Movers(moves) <==> b in Stranded(pm, batch) {
      assert b in Movers(moves) <==> IsMover(moves, b);
    }
    if moves != [] { assert moves[0] in moves; assert moves[0].branch in Stranded(pm, batch); }
  }

  /** Some branch to be moved has no stored divergence revision. */
  ghost predicate Unpinned(trunk: string, revs: Revisions, moves: seq<Move>) {
    exists m :: m in moves && Stored(revs, m.branch) == "" && m.branch != trunk
  }

  lemma MovesListed(pm: ParentMap, b: string, children: seq<string>, p: string, moves: seq<Move>)
    requires forall c :: c in children <==> c in pm && pm[c] == b
    requires |moves| == |children| && forall i :: 0 <= i < |moves| ==> moves[i] == Move(children[i], p)
    ensures forall m :: m in moves ==> m.branch in pm && pm[m.branch] == b && m.newParent == p
    ensures forall c :: c in pm && pm[c] == b ==> IsMover(moves, c)
  {
    forall c | c in pm && pm[c] == b ensures IsMover(moves, c) {
      var i :| 0 <= i < |children| && children[i] == c;
      assert moves[i] in moves;
    }
  }

  /** Handing the children of one branch to its parent is deleting a batch of one. */
  lemma SingleDeletionMoves(pm: ParentMap, trunk: string, b: string, moves: seq<Move>)
    requires WellFormed(pm, trunk) && b != trunk
    requires forall m :: m in moves ==>
      m.branch in pm && pm[m.branch] == b && m.newParent == ParentOrTrunk(pm, trunk, b)
    ensures Elems([b]) == {b} && forall m :: m in moves ==> IsDeletionMove(pm, trunk, [b], m)
  {
    DepthsRank(pm, trunk);
    var up, p := BatchParents(pm, trunk, [b]), ParentOrTrunk(pm, trunk, b);
    assert Elems([b]) == {b};
    NearestStep(up, {b}, p, p);
  }

  /** What a deletion's moves do to a forest and to a linear graph. */
  lemma DeletionIsSafe(trunk: string, branches: seq<string>, pm: ParentMap, batch: seq<string>, moves: seq<Move>)
    requires trunk !in batch && MovesTheChildren(pm, batch, moves) &&
      forall m :: m in moves ==> IsDeletionMove(pm, trunk, batch, m)
    ensures WellFormed(pm, trunk) ==> DeletionResult(pm, Elems(batch), ParentsAfter(pm, moves, batch))
    ensures WellFormed(pm, trunk) && Closed(branches, pm, trunk) && Linear(branches, pm, trunk) ==>
      LinearAfter(trunk, branches, pm, moves, batch)
  {
    if WellFormed(pm, trunk) {
      PlannedMoves(pm, trunk, batch, moves);
      MovesGiveResult(pm, trunk, Elems(batch), moves, batch);
      if Closed(branches, pm, trunk) && Linear(branches, pm, trunk) {
        DeletionAccepted(branches, pm, trunk, Elems(batch), moves, batch);
      }
    }
  }

  lemma SingleDeletionIsSafe(trunk: string, branches: seq<string>, pm: ParentMap, b: string, children: seq<string>,
      moves: seq<Move>)
    requires b != trunk && (b in pm ==> pm[b] != b) && forall c :: c in children <==> c in pm && pm[c] == b
    requires |moves| == |children| &&
      forall i :: 0 <= i < |moves| ==> moves[i] == Move(children[i], ParentOrTrunk(pm, trunk, b))
    ensures MovesTheChildren(pm, [b], moves)
    ensures forall m :: m in moves ==>
      m.branch in pm && m.branch != b && pm[m.branch] == b && m.newParent == ParentOrTrunk(pm, trunk, b)
    ensures WellFormed(pm, trunk) ==> forall m :: m in moves ==> m.branch !in {trunk, m.newParent}
    ensures WellFormed(pm, trunk) ==> DeletionResult(pm, {b}, ParentsAfter(pm, moves, [b]))
    ensures WellFormed(pm, trunk) && Closed(branches, pm, trunk) && Linear(branches, pm, trunk) ==>
      LinearAfter(trunk, branches, pm, moves, [b])
  {
    MovesListed(pm, b, children, ParentOrTrunk(pm, trunk, b), moves);
    if WellFormed(pm, trunk) {
      SingleDeletionMoves(pm, trunk, b, moves);
      ForestMovesLead(pm, trunk, [b]);
      assert forall m :: m in moves ==> m.branch in Stranded(pm, [b]) && IsDeletionMove(pm, trunk, [b], m);
      DeletionIsSafe(trunk, branches, pm, [b], moves);
    }
  }

  /** With the refs of a batch gone, a child of the batch has a range only if it has a stored revision; every range that
      can still be read is the one it was. */
  lemma RangesAfterRemoval(trunk: string, s: Snapshot, batch: seq<string>, moves: seq<Move>)
    requires trunk !in batch && MovesTheChildren(s.parents, batch, moves)
    ensures var s' := SnapshotWithout(s, batch);
      (forall b :: b !in batch ==>
        if IsMover(moves, b) && Stored(s.revs, b) == "" && b != trunk then OwnRange(trunk, s', b).None?
          else OwnRange(trunk, s', b) == OwnRange(trunk, s, b)) &&
      (Anchored(s) ==> Anchored(s'))
  {
    forall b | b !in batch && IsMover(moves, b) ensures b in s.parents && s.parents[b] in batch {
      var m :| m in moves && m.branch == b;
    }
    assert forall b :: b !in batch ==> Stored(Except(s.revs, batch), b) == Stored(s.revs, b);
  }

  /** Ranges of the branches outside a batch are what they were. */
  ghost predicate SurvivorsKeepRanges(trunk: string, s: Snapshot, s': Snapshot, batch: seq<string>) {
    forall b :: b !in batch ==> OwnRange(trunk, s, b) == OwnRange(trunk, s', b)
  }

  /** Past the deletion of its refs a batch leaves every survivor its range, but for a child without a stored revision,
      whose range can no longer be read. */
  ghost predicate SurvivorsRead(trunk: string, s: Snapshot, s': Snapshot, batch: seq<string>) {
    forall b :: b !in batch ==>
      if b in Stranded(s.parents, batch) - {trunk} && Stored(s.revs, b) == "" then OwnRange(trunk, s', b).None?
      else OwnRange(trunk, s', b) == OwnRange(trunk, s, b)
  }

  /** The range of a child without a stored revision cannot be read once its parent's ref is gone. */
  lemma UnpinnedIsUnreadable(trunk: string, s: Snapshot, batch: seq<string>, moves: seq<Move>)
    requires trunk !in batch && MovesTheChildren(s.parents, batch, moves) && Unpinned(trunk, s.revs, moves)
    ensures Unreadable(trunk, SnapshotWithout(s, batch), moves)
  {
    RangesAfterRemoval(trunk, s, batch, moves);
    var m :| m in moves && Stored(s.revs, m.branch) == "" && m.branch != trunk;
    assert IsMover(moves, m.branch);
  }

  /** Where every child of a batch has a stored revision, a batch of moves that stops keeps every range. */
  lemma PinnedKeep(trunk: string, s: Snapshot, batch: seq<string>, moves: seq<Move>, now: Snapshot)
    requires MovesTheChildren(s.parents, batch, moves) && !Unpinned(trunk, s.revs, moves)
    requires AllButOneKeep(trunk, SnapshotWithout(s, batch), now, moves)
    ensures SameRanges(trunk, SnapshotWithout(s, batch), now)
  {
    forall x | x in Movers(moves) && x != trunk ensures Stored(Except(s.revs, batch), x) != "" {
      var m :| m in moves && m.branch == x;
    }
  }

  lemma SurvivorsReadAfter(trunk: string, s: Snapshot, s': Snapshot, batch: seq<string>, moves: seq<Move>)
    requires trunk !in batch && MovesTheChildren(s.parents, batch, moves)
    requires SameRanges(trunk, SnapshotWithout(s, batch), s')
    ensures SurvivorsRead(trunk, s, s', batch)
  {
    RangesAfterRemoval(trunk, s, batch, moves);
    forall b | b !in batch
      ensures if b in Stranded(s.parents, batch) - {trunk} && Stored(s.revs, b) == "" then OwnRange(trunk, s', b).None?
        else OwnRange(trunk, s', b) == OwnRange(trunk, s, b)
    {
      assert OwnRange(trunk, SnapshotWithout(s, batch), b) == OwnRange(trunk, s', b);
      assert IsMover(moves, b) ==> b in Stranded(s.parents, batch);
    }
  }

  lemma RangesThroughDeletion(trunk: string, s: Snapshot, s': Snapshot, batch: seq<string>, moves: seq<Move>)
    requires trunk !in batch && MovesTheChildren(s.parents, batch, moves)
    requires !Unpinned(trunk, s.revs, moves) && SameRanges(trunk, SnapshotWithout(s, batch), s')
    ensures SurvivorsKeepRanges(trunk, s, s', batch)
  {
    RangesAfterRemoval(trunk, s, batch, moves);
    forall b | b !in batch ensures OwnRange(trunk, s, b) == OwnRange(trunk, s', b) {
      assert OwnRange(trunk, SnapshotWithout(s, batch), b) == OwnRange(trunk, s', b);
    }
  }

  ghost predicate OthersKeepRanges(trunk: string, s: Snapshot, s': Snapshot, b: string) {
    forall c :: c != b ==> OwnRange(trunk, s, c) == OwnRange(trunk, s', c)
  }

  /** Every range that could be read is unchanged. */
  ghost predicate RangesSurvive(trunk: string, s: Snapshot, s': Snapshot) {
    forall c :: OwnRange(trunk, s, c).Some? ==> OwnRange(trunk, s', c) == OwnRange(trunk, s, c)
  }

  ghost predicate PreservedKeepRanges(trunk: string, s: Snapshot, s': Snapshot, updates: seq<ParentUpdate>) {
    forall b :: !HasRecompute(updates, b) ==> OwnRange(trunk, s, b) == OwnRange(trunk, s', b)
  }

  /** Of the branches no update recomputes, those moved store the bases of the ranges they had, the others what they
      did. */
  ghost predicate PinnedOrKept(trunk: string, s: Snapshot, s': Snapshot, updates: seq<ParentUpdate>) {
    forall b :: !HasRecompute(updates, b) ==>
      if IsMover(MovesOf(updates), b) then
        OwnRange(trunk, s, b).Some? && Stored(s'.revs, b) == OwnRange(trunk, s, b).value.base != ""
      else Stored(s'.revs, b) == Stored(s.revs, b)
  }

  // ---------- What a batch of moves needs, and what it leaves when it fails ----------

  /** m can be made: its branch is not sent to itself and descends from the commit its own range starts at. */
  ghost predicate CanMove(trunk: string, s: Snapshot, m: Move) {
    m.branch != m.newParent && KeepsBase(trunk, s, m.branch)
  }

  /** The range of b can be read, and b descends from the commit it starts at. */
  ghost predicate KeepsBase(trunk: string, s: Snapshot, b: string) {
    OwnRange(trunk, s, b).Some? && var base := OwnRange(trunk, s, b).value.base; base != "" && AtTip(s.git, base, b)
  }

  /** u can be applied: like a move when it preserves, and with a merge base to be found when it recomputes. */
  ghost predicate CanUpdate(trunk: string, s: Snapshot, u: ParentUpdate) {
    u.branch != u.newParent &&
    match u.mode
    case Preserve => KeepsBase(trunk, s, u.branch)
    case Recompute => s.git.MergeBase(u.branch, u.newParent).Some?
  }

  ghost predicate AllCanUpdate(trunk: string, s: Snapshot, updates: seq<ParentUpdate>) {
    forall u :: u in updates ==> CanUpdate(trunk, s, u)
  }

  /** u can be applied with the divergence points captured. */
  ghost predicate CanApply(git: Git, divPoints: Revisions, u: ParentUpdate) {
    match u.mode
    case Preserve => Stored(divPoints, u.branch) != "" && AtTip(git, Stored(divPoints, u.branch), u.branch)
    case Recompute => git.MergeBase(u.branch, u.newParent).Some?
  }

  ghost predicate AllCanMove(trunk: string, s: Snapshot, moves: seq<Move>) {
    forall m :: m in moves ==> CanMove(trunk, s, m)
  }

  /** m can be pinned at the point captured for its branch. */
  ghost predicate CanPin(git: Git, divPoints: Revisions, m: Move) {
    m.branch != m.newParent && AtTip(git, Stored(divPoints, m.branch), m.branch)
  }

  /** The first k moves have been made. */
  ghost predicate MovedFirst(pm: ParentMap, moves: seq<Move>, k: nat, pm': ParentMap) {
    k <= |moves| && pm' == ApplyMoves(pm, moves[..k])
  }

  /** Some first moves of the batch have been made, and no other. */
  ghost predicate PartWay(pm: ParentMap, moves: seq<Move>, pm': ParentMap) {
    exists k: nat :: MovedFirst(pm, moves, k, pm')
  }

  /** The first n updates can be applied. */
  ghost predicate CanApplyFirst(git: Git, divPoints: Revisions, updates: seq<ParentUpdate>, n: nat) {
    forall j :: 0 <= j < n && j < |updates| ==> CanApply(git, divPoints, updates[j])
  }

  /** The first k moves of the batch are made and pinned at points their branches descend from; the next may be made but
      not pinned; no other is made. */
  ghost predicate PinnedFirst(s: Snapshot, moves: seq<Move>, divPoints: Revisions, k: nat, now: Snapshot) {
    k <= |moves| && now.git == s.git && now.revs == PinRevisions(s.revs, moves[..k], divPoints) &&
    (now.parents == ApplyMoves(s.parents, moves[..k]) ||
      (k < |moves| && now.parents == ApplyMoves(s.parents, moves[..k + 1]))) &&
    forall j :: 0 <= j < k ==> CanPin(s.git, divPoints, moves[j])
  }

  ghost predicate PinnedPartWay(s: Snapshot, moves: seq<Move>, divPoints: Revisions, now: Snapshot) {
    exists k: nat :: PinnedFirst(s, moves, divPoints, k, now)
  }

  /** Every range is unchanged, but perhaps that of one mover without a stored revision. */
  ghost predicate AllButOneKeep(trunk: string, s: Snapshot, s': Snapshot, moves: seq<Move>) {
    SameRanges(trunk, s, s') ||
    exists x :: x in Movers(moves) && x != trunk && Stored(s.revs, x) == "" && OthersKeepRanges(trunk, s, s', x)
  }

  /** However far a batch got, ranges are kept, but perhaps where it stopped, and what is anchored stays so. */
  lemma PartWayKeeps(trunk: string, s: Snapshot, moves: seq<Move>, divPoints: Revisions, now: Snapshot)
    requires Captured(trunk, s, divPoints) && forall m :: m in moves ==> Stored(divPoints, m.branch) != ""
    requires PinnedPartWay(s, moves, divPoints, now)
    ensures AllButOneKeep(trunk, s, now, moves) && (Anchored(s) ==> Anchored(now))
  {
    var k: nat :| PinnedFirst(s, moves, divPoints, k, now);
    forall b ensures OwnRange(trunk, s, b) == OwnRange(trunk, now, b) || StoppedHere(trunk, s, moves, k, b)
      ensures Anchored(s) && Stored(now.revs, b) != "" ==> AtTip(now.git, now.revs[b], b)
    {
      RangePartWay(trunk, s, moves, divPoints, k, now, b);
    }
    if k < |moves| && StoppedHere(trunk, s, moves, k, moves[k].branch) {
      assert moves[k] in moves && moves[k].branch in Movers(moves);
      assert OthersKeepRanges(trunk, s, now, moves[k].branch);
    }
  }

  /** b is the unpinned branch the batch stopped at. */
  ghost predicate StoppedHere(trunk: string, s: Snapshot, moves: seq<Move>, k: nat, b: string) {
    k < |moves| && b == moves[k].branch && b != trunk && Stored(s.revs, b) == ""
  }

  lemma RangePartWay(trunk: string, s: Snapshot, moves: seq<Move>, divPoints: Revisions, k: nat, now: Snapshot,
      b: string)
    requires Captured(trunk, s, divPoints) && forall m :: m in moves ==> Stored(divPoints, m.branch) != ""
    requires PinnedFirst(s, moves, divPoints, k, now)
    ensures OwnRange(trunk, s, b) == OwnRange(trunk, now, b) || StoppedHere(trunk, s, moves, k, b)
    ensures Anchored(s) && Stored(now.revs, b) != "" ==> AtTip(now.git, now.revs[b], b)
  {
    PinRevisionsValue(s.revs, moves[..k], divPoints, b);
    if IsMover(moves[..k], b) {
      var j :| 0 <= j < k && moves[j].branch == b;
      assert CanPin(s.git, divPoints, moves[j]) && moves[j] in moves;
    } else if !StoppedHere(trunk, s, moves, k, b) {
      if k < |moves| && b == moves[k].branch {
        assert b == trunk || Stored(s.revs, b) != "";
      } else {
        UnmovedPartWay(s, moves, divPoints, k, now, b);
      }
    }
  }

  lemma UnmovedPartWay(s: Snapshot, moves: seq<Move>, divPoints: Revisions, k: nat, now: Snapshot, b: string)
    requires PinnedFirst(s, moves, divPoints, k, now) && !IsMover(moves[..k], b) &&
      (k < |moves| ==> b != moves[k].branch)
    ensures (b in s.parents <==> b in now.parents) && (b in s.parents ==> s.parents[b] == now.parents[b])
  {
    ApplyMovesValue(s.parents, moves[..k], b);
    if k < |moves| {
      assert moves[..k + 1] == moves[..k] + [moves[k]];
      MoverAppend(moves[..k], moves[k]);
      ApplyMovesValue(s.parents, moves[..k + 1], b);
    }
  }

  /** A batch stopped at its i-th move, made or not. */
  lemma StoppedAt(pm: ParentMap, moves: seq<Move>, i: nat, pm': ParentMap)
    requires i < |moves|
    requires pm' in {ApplyMoves(pm, moves[..i]), ApplyMoves(pm, moves[..i])[moves[i].branch := moves[i].newParent]}
    ensures PartWay(pm, moves, pm')
  {
    assert moves[..i + 1][..i] == moves[..i];
    assert MovedFirst(pm, moves, i, pm') || MovedFirst(pm, moves, i + 1, pm');
  }

  lemma NeverStopped(pm: ParentMap, moves: seq<Move>)
    ensures moves[..|moves|] == moves && PartWay(pm, moves, ApplyMoves(pm, moves))
  {
    assert moves[..|moves|] == moves;
    assert MovedFirst(pm, moves, |moves|, ApplyMoves(pm, moves));
  }

  lemma PartWayValue(pm: ParentMap, moves: seq<Move>, pm': ParentMap, b: string)
    requires PartWay(pm, moves, pm')
    ensures b in pm ==> b in pm'
    ensures b in pm' ==> (b in pm && pm'[b] == pm[b]) || Move(b, pm'[b]) in moves
  {
    var k: nat :| MovedFirst(pm, moves, k, pm');
    ApplyMovesValue(pm, moves[..k], b);
  }

  /** Half of a reorder: below trunk and a, b is to go to trunk and a below b. Failing after the first move leaves the
      two branches each other's parents, although both ends of the batch are forests. */
  lemma HalfReorderCycles()
    ensures var pm, moves: seq<Move> := map["a" := "t", "b" := "a"], [Move("a", "b"), Move("b", "t")];
      WellFormed(pm, "t") && WellFormed(ApplyMoves(pm, moves), "t") &&
      PartWay(pm, moves, map["a" := "b", "b" := "a"]) && !Acyclic(map["a" := "b", "b" := "a"])
  {
    var pm: ParentMap, moves: seq<Move> := map["a" := "t", "b" := "a"], [Move("a", "b"), Move("b", "t")];
    var half: ParentMap := map["a" := "b", "b" := "a"];
    assert moves[..1] == [Move("a", "b")] && moves[..1][..0] == [];
    assert MovedFirst(pm, moves, 1, half);
    assert ApplyMoves(pm, moves) == map["a" := "b", "b" := "t"];
    assert "a"[0] != "b"[0] && "a"[0] != "t"[0] && "b"[0] != "t"[0];
    RankedWellFormed(pm, "t", map["a" := 1, "b" := 2]);
    RankedWellFormed(ApplyMoves(pm, moves), "t", map["a" := 2, "b" := 1]);
    assert Climb(half, "a", 2) == Climb(half, "b", 1) == Climb(half, "a", 0);
  }

  ghost predicate AllRooted(s: Snapshot, names: set<string>) {
    forall b :: b in names ==> Rooted(s, b)
  }

  /** With a batch's refs gone, its surviving children can be moved iff each is rooted in its stored revision. */
  lemma RootedCanMove(trunk: string, s: Snapshot, batch: seq<string>, moves: seq<Move>)
    requires trunk !in batch && MovesTheChildren(s.parents, batch, moves)
    ensures AllCanMove(trunk, SnapshotWithout(s, batch), moves) ==> AllRooted(s, Stranded(s.parents, batch) - {trunk})
    ensures (forall m :: m in moves ==> m.branch !in {trunk, m.newParent}) ==>
      (AllRooted(s, Stranded(s.parents, batch)) ==> AllCanMove(trunk, SnapshotWithout(s, batch), moves))
  {
    var s' := SnapshotWithout(s, batch);
    forall m | m in moves && m.branch != trunk
      ensures m.branch in Stranded(s.parents, batch)
      ensures CanMove(trunk, s', m) <==> m.branch != m.newParent && Rooted(s, m.branch)
    {
      assert Stored(s'.revs, m.branch) == Stored(s.revs, m.branch);
    }
    if AllCanMove(trunk, s', moves) {
      forall b | b in Stranded(s.parents, batch) - {trunk} ensures Rooted(s, b) {
        var m :| m in moves && m.branch == b;
        assert CanMove(trunk, s', m);
      }
    }
  }

  /** A deletion moves neither trunk nor a branch to itself. */
  ghost predicate MovesLead(pm: ParentMap, trunk: string, batch: seq<string>) {
    forall b :: b in Stranded(pm, batch) ==> b != trunk && !IsDeletionMove(pm, trunk, batch, Move(b, b))
  }

  /** On a forest all moves of a deletion lead somewhere. */
  lemma ForestMovesLead(pm: ParentMap, trunk: string, batch: seq<string>)
    requires WellFormed(pm, trunk) && trunk !in batch
    ensures MovesLead(pm, trunk, batch)
  {
    DepthsRank(pm, trunk);
    var rank, up := Depths(pm, trunk), BatchParents(pm, trunk, batch);
    forall b | b in Stranded(pm, batch) ensures !IsDeletionMove(pm, trunk, batch, Move(b, b)) {
      var d := pm[b];
      var r := ForestNearest(pm, trunk, rank, Elems(batch), pm[d]);
      BatchWalk(pm, trunk, rank, batch, pm[d], r);
      assert Escapes(up, Elems(batch), up[d]);
      if IsDeletionMove(pm, trunk, batch, Move(b, b)) { NearestUnique(up, Elems(batch), up[d], r, b); }
    }
  }

  /** Exactly the batch has lost its place among the branches and its ref; other refs stand where they did. */
  ghost predicate RefsGone(branches: seq<string>, git: Git, batch: seq<string>, branches': seq<string>, git': Git) {
    (forall b :: b in branches' <==> b in branches && b !in batch) &&
    (forall b :: b in git'.tips <==> b in git.tips && b !in batch) &&
    forall b :: b in git'.tips ==> git'.tips[b] == git.tips[b]
  }

  lemma RefsAreGone(branches: seq<string>, s: Snapshot, batch: seq<string>)
    ensures RefsGone(branches, s.git, batch, Without(branches, batch), SnapshotWithout(s, batch).git)
  {
  }

  /** A batch is gone, each surviving child is where it was to go, and no other branch has moved. */
  ghost predicate GoneEntirely(pm: ParentMap, trunk: string, batch: seq<string>, pm': ParentMap) {
    pm'.Keys == pm.Keys - Elems(batch) &&
    forall b :: b in pm' ==>
      if pm[b] in batch then IsDeletionMove(pm, trunk, batch, Move(b, pm'[b])) else pm'[b] == pm[b]
  }

  lemma MovesGone(pm: ParentMap, trunk: string, batch: seq<string>, moves: seq<Move>)
    requires MovesTheChildren(pm, batch, moves) && forall m :: m in moves ==> IsDeletionMove(pm, trunk, batch, m)
    ensures GoneEntirely(pm, trunk, batch, ParentsAfter(pm, moves, batch))
  {
    forall b ensures b in ParentsAfter(pm, moves, batch) <==> b in pm && b !in batch
      ensures b in pm && b !in batch ==> if pm[b] in batch
        then IsDeletionMove(pm, trunk, batch, Move(b, ParentsAfter(pm, moves, batch)[b]))
        else ParentsAfter(pm, moves, batch)[b] == pm[b]
    {
      ApplyMovesValue(Except(pm, batch), moves, b);
    }
  }

  /** A batch is gone, and each surviving child is where it was or where it was to go. */
  ghost predicate GonePartWay(pm: ParentMap, trunk: string, batch: seq<string>, pm': ParentMap) {
    pm'.Keys == pm.Keys - Elems(batch) &&
    forall b :: b in pm' ==> pm'[b] == pm[b] || IsDeletionMove(pm, trunk, batch, Move(b, pm'[b]))
  }

  lemma PartWayGone(pm: ParentMap, trunk: string, batch: seq<string>, moves: seq<Move>, pm': ParentMap)
    requires MovesTheChildren(pm, batch, moves) && forall m :: m in moves ==> IsDeletionMove(pm, trunk, batch, m)
    requires PartWay(Except(pm, batch), moves, pm')
    ensures GonePartWay(pm, trunk, batch, pm')
  {
    forall b ensures b in pm' <==> b in pm && b !in batch
      ensures b in pm' ==> pm'[b] == pm[b] || IsDeletionMove(pm, trunk, batch, Move(b, pm'[b]))
    {
      PartWayValue(Except(pm, batch), moves, pm', b);
    }
  }

  /** One branch is gone, and each of its children is where it was or with the branch's parent. */
  ghost predicate HandedOver(pm: ParentMap, trunk: string, b: string, pm': ParentMap) {
    pm'.Keys == pm.Keys - {b} &&
      forall c :: c in pm' ==> pm'[c] == pm[c] || (pm[c] == b && pm'[c] == ParentOrTrunk(pm, trunk, b))
  }

  lemma SingleGone(pm: ParentMap, trunk: string, b: string, moves: seq<Move>, pm': ParentMap)
    requires forall m :: m in moves ==>
      m.branch in pm && m.branch != b && pm[m.branch] == b && m.newParent == ParentOrTrunk(pm, trunk, b)
    requires PartWay(Except(pm, [b]), moves, pm')
    ensures HandedOver(pm, trunk, b, pm')
  {
    forall c ensures c in pm' <==> c in pm && c != b
      ensures c in pm' ==> pm'[c] == pm[c] || (pm[c] == b && pm'[c] == ParentOrTrunk(pm, trunk, b))
    {
      PartWayValue(Except(pm, [b]), moves, pm', c);
    }
  }

  /** Deleting p, whose children x and y both store its tip. x was rebased by hand and no longer descends from it, so
      the deletion fails with p gone, although no child lacks a revision. */
  lemma RebasedChildIsStuck()
    ensures var s := Snapshot(RebasedGit(), map["p" := "t", "x" := "p", "y" := "p"],
      map["p" := "c0", "x" := "c1", "y" := "c1"]);
      s.git.Sound() && WellFormed(s.parents, "t") && Stranded(s.parents, ["p"]) == {"x", "y"} &&
      Stored(s.revs, "x") != "" && Stored(s.revs, "y") != "" && Rooted(s, "y") && !Rooted(s, "x")
  {
    var s := Snapshot(RebasedGit(), map["p" := "t", "x" := "p", "y" := "p"],
      map["p" := "c0", "x" := "c1", "y" := "c1"]);
    assert "p"[0] != "x"[0] && "p"[0] != "y"[0] && "p"[0] != "t"[0] && "x"[0] != "y"[0] && "t"[0] != "x"[0] &&
      "t"[0] != "y"[0];
    assert "c1"[1] != "c2"[1] && "c2"[1] != "c3"[1] && "c1" != "c2" && "c2" != "c3";
    RankedWellFormed(s.parents, "t", map["p" := 1, "x" := 2, "y" := 2]);
  }

  function RebasedGit(): Git {
    Git(map["t" := "c0", "p" := "c1", "x" := "c2", "y" := "c3"],
        (a, b) => a == "c0" || a == b || (a == "c1" && b == "c3"),
        (a, b) => Some("c0"), (a, b) => false, (a, b) => false, b => false)
  }

  /** The range of some branch to be moved cannot be read. */
  ghost predicate Unreadable(trunk: string, s: Snapshot, moves: seq<Move>) {
    exists m :: m in moves && OwnRange(trunk, s, m.branch).None?
  }

  /** Moving one branch, pinned at the divergence point looked up for it, keeps every range that could be read. */
  lemma PinnedAlone(trunk: string, s: Snapshot, b: string, p: string, div: string)
    requires DivergencePoint(trunk, s, b) == Some(div)
    ensures s.git.Sound() ==> div != "" && RangesSurvive(trunk, s, Snapshot(s.git, s.parents[b := p], s.revs[b := div]))
    ensures Anchored(s) && AtTip(s.git, div, b) ==> Anchored(Snapshot(s.git, s.parents[b := p], s.revs[b := div]))
  {
  }

  /** b has a divergence point to keep: its stored revision, or without one the tip of its recorded parent, trunk
      standing
      in for an empty name; and it descends from it. */
  ghost predicate HasPoint(trunk: string, s: Snapshot, b: string) {
    if b in s.revs && s.revs[b] != "" then b in s.git.tips && s.git.reaches(s.revs[b], s.git.tips[b])
    else
      b in s.parents &&
      var parent := if s.parents[b] == "" then trunk else s.parents[b];
      parent in s.git.tips &&
      (s.git.tips[parent] == "" || (b in s.git.tips && s.git.reaches(s.git.tips[parent], s.git.tips[b])))
  }

  /** Moving one branch to a revision of its own changes no other range and keeps what is anchored anchored. */
  lemma MovedAlone(trunk: string, s: Snapshot, b: string, p: string, rev: string)
    ensures var s' := Snapshot(s.git, s.parents[b := p], s.revs[b := rev]);
      OthersKeepRanges(trunk, s, s', b) && (Anchored(s) && AtTip(s.git, rev, b) ==> Anchored(s'))
  {
  }

  /** Recording a prior parent and revision for a branch keeps what is anchored iff the branch descends from it. */
  lemma PriorAnchored(s: Snapshot, b: string, prior: string, rev: string)
    requires Anchored(s) && rev != ""
    ensures Anchored(Snapshot(s.git, s.parents[b := prior], s.revs[b := rev])) <==> AtTip(s.git, rev, b)
  {
    var s' := Snapshot(s.git, s.parents[b := prior], s.revs[b := rev]);
    assert Stored(s'.revs, b) == rev;
    assert forall c :: c != b ==> Stored(s'.revs, c) == Stored(s.revs, c);
  }

  class Engine {
    const trunk: string
    const linearStacks: bool
    const reliable: bool // no write, checkout or ref deletion fails
    var branches: seq<string>
    var parents: ParentMap
    var revs: Revisions
    var git: Git
    var currentBranch: string

    constructor (trunk: string, linearStacks: bool, reliable: bool, branches: seq<string>, parents: ParentMap,
        revs: Revisions, git: Git, current: string)
      ensures this.trunk == trunk && this.linearStacks == linearStacks && this.branches == branches
      ensures this.reliable == reliable
      ensures this.parents == parents && this.revs == revs && this.git == git && this.currentBranch == current
    {
      this.trunk, this.linearStacks, this.reliable, this.branches := trunk, linearStacks, reliable, branches;
      this.parents, this.revs, this.git, this.currentBranch := parents, revs, git, current;
    }

    function Now(): Snapshot
      reads this
    {
      Snapshot(git, parents, revs)
    }

    /** A validator that let the batch through. */
    ghost predicate Accepted(moves: seq<Move>, removed: seq<string>)
      reads this
    {
      !linearStacks || moves == [] || LinearAfter(trunk, branches, parents, moves, removed)
    }

    method Validate(moves: seq<Move>, removed: seq<string>) returns (ok: bool)
      ensures ok <==> Accepted(moves, removed)
    {
      ok := ValidateLinearParentMovesAfterRemovals(linearStacks, trunk, branches, parents, moves, removed);
    }

    // ---------- One branch ----------

    /** A metadata transaction may fail; it then changes nothing. */
    method Commit() returns (ok: bool)
      ensures reliable ==> ok
    {
      ok := *;
      ok := ok || reliable;
    }

    method SetParentName(b: string, p: string) returns (r: Outcome)
      modifies this`parents
      ensures reliable ==> !Faulted(r)
      ensures r.Done? ==> b != p && parents == old(parents)[b := p]
      ensures r.Failed? ==>
        parents == old(parents) && (r == Failed(SelfParent) <==> b == p) && r.why in {SelfParent, NoMetadataCommit}
    {
      if b == p { return Failed(SelfParent); }
      var ok := Commit();
      if !ok { return Failed(NoMetadataCommit); }
      parents := parents[b := p];
      return Done;
    }

    /** Moves b and pins its divergence point. Failing between the two steps leaves the parent moved. */
    method SetParentPreservingDivergence(b: string, p: string, div: string) returns (r: Outcome)
      modifies this`parents, this`revs
      ensures reliable ==> !Faulted(r)
      ensures r.Done? ==> b != p && parents == old(parents)[b := p]
      ensures r.Done? ==>
        revs == (if div == "" then old(revs) else old(revs)[b := div]) && (div != "" ==> AtTip(git, div, b))
      ensures r.Failed? ==> revs == old(revs) && parents in {old(parents), old(parents)[b := p]}
      ensures r.Failed? ==>
        r.why in {SelfParent, NoMetadataCommit, NotAnAncestor, GitFailed} && (r.why == SelfParent <==> b == p)
      ensures r.Failed? && r.why in {NotAnAncestor, GitFailed} ==> b != p && div != "" && !AtTip(git, div, b)
      ensures r == Failed(GitFailed) ==> b !in git.tips
    {
      r := SetParentName(b, p);
      if r.Failed? { return; }
      if div == "" { return Done; }
      var ancestor := git.IsAncestor(div, b);
      if ancestor.None? { return Failed(GitFailed); }
      if !ancestor.value { return Failed(NotAnAncestor); }
      var ok := Commit();
      if !ok { return Failed(NoMetadataCommit); }
      revs := revs[b := div];
      return Done;
    }

    /** Moves b under p and stores the new merge base, unless the old revision is to be kept. */
    method SetParentRecomputingDivergence(b: string, p: string) returns (r: Outcome)
      modifies this`parents, this`revs
      ensures reliable ==> !Faulted(r)
      ensures r.Failed? ==> parents == old(parents) && revs == old(revs) && r.why in {NoMergeBase, NoMetadataCommit}
      ensures r == Failed(NoMergeBase) <==> git.MergeBase(b, p).None?
      ensures r.Done? ==> git.MergeBase(b, p).Some? && parents == old(parents)[b := p]
      ensures r.Done? ==> revs == old(revs)[b := FreshRevision(trunk, old(Now()), b, p)]
      ensures r.Done? && old(LeavesLanded(trunk, Now(), b, p)) ==> revs == old(revs)
      ensures r.Done? && !old(LeavesLanded(trunk, Now(), b, p)) ==>
        b in git.tips && p in git.tips && git.mergeBase(git.tips[b], git.tips[p]) == Some(revs[b])
    {
      if git.MergeBase(b, p).Some? { FreshRevisionIs(trunk, Now(), b, p); }
      var parentRev := git.MergeBase(b, p);
      if parentRev.None? { return Failed(NoMergeBase); }
      var oldParent, oldRev := Parent(parents, b), Stored(revs, b);
      var shouldUpdateRevision := true;
      if oldParent != "" && oldParent != p && oldRev != "" {
        if git.IsAncestor(oldRev, b) == Some(true) {
          if BranchLanded(git, trunk, oldParent, p) || BranchLanded(git, trunk, oldRev, p) {
            shouldUpdateRevision := false;
          } else if git.merged(oldParent, p) {
            shouldUpdateRevision := false;
          }
        }
      }
      var ok := Commit();
      if !ok { return Failed(NoMetadataCommit); }
      parents := parents[b := p];
      if shouldUpdateRevision { revs := revs[b := parentRev.value]; } else { assert revs == revs[b := oldRev]; }
      return Done;
    }

    method SetParent(b: string, p: string, mode: DivergenceMode) returns (r: Outcome)
      modifies this`parents, this`revs
      ensures reliable ==> !Faulted(r)
      ensures r.Done? && linearStacks ==>
        Step(trunk, old(Shape(branches, parents)), SetParentTo(b, p), Shape(branches, parents))
      ensures r.Done? ==> b != p && old(Accepted([Move(b, p)], [])) && parents == old(parents)[b := p]
      ensures r.Done? && git.Sound() && old(Anchored(Now())) ==> Anchored(Now())
      ensures r.Done? && mode == Preserve && git.Sound() ==> RangesSurvive(trunk, old(Now()), Now())
      ensures r.Done? && mode == Recompute ==> OthersKeepRanges(trunk, old(Now()), Now(), b)
      ensures r.Done? && mode == Recompute ==> git.MergeBase(b, p).Some?
      ensures r.Done? && mode == Recompute ==> revs == old(revs)[b := FreshRevision(trunk, old(Now()), b, p)]
      ensures r.Done? && mode == Recompute && old(LeavesLanded(trunk, Now(), b, p)) ==> revs == old(revs)
      ensures r.Done? && mode == Recompute && !old(LeavesLanded(trunk, Now(), b, p)) ==>
        b in git.tips && p in git.tips && git.mergeBase(git.tips[b], git.tips[p]) == Some(revs[b])
      ensures r == Failed(SelfParent) <==> b == p
      ensures mode == Preserve && b != p && old(Accepted([Move(b, p)], [])) && r != Failed(NoMetadataCommit) ==>
        (r.Done? <==> old(HasPoint(trunk, Now(), b)))
      ensures r.Done? && mode == Preserve && old(Stored(revs, b)) != "" ==> revs == old(revs)
      ensures r.Done? && mode == Preserve && old(Stored(revs, b)) == "" ==>
        var parent := if old(parents)[b] == "" then trunk else old(parents)[b];
        Stored(revs, b) == git.tips[parent] && forall c :: c != b ==> Stored(revs, c) == Stored(old(revs), c)
      ensures r == Failed(NotLinear) <==> b != p && !old(Accepted([Move(b, p)], []))
      ensures r.Failed? && r.why in {SelfParent, NotLinear} ==> parents == old(parents) && revs == old(revs)
      ensures r.Failed? && mode == Recompute ==> parents == old(parents) && revs == old(revs)
      ensures mode == Recompute && b != p && r != Failed(NoMetadataCommit) ==>
        (r.Done? <==> Fits(linearStacks, trunk, branches, old(Now()), b, p))
    {
      if b == p { return Failed(SelfParent); }
      assert ApplyMoves(parents, [Move(b, p)]) == parents[b := p] by { assert [Move(b, p)][..0] == []; }
      var ok := Validate([Move(b, p)], []);
      if !ok { return Failed(NotLinear); }
      match mode
      case Preserve =>
        var div := DivergencePoint(trunk, Now(), b);
        if div.None? { return Failed(NoDivergencePoint); }
        PinnedAlone(trunk, Now(), b, p, div.value);
        r := SetParentPreservingDivergence(b, p, div.value);
      case Recompute =>
        MovedAlone(trunk, Now(), b, p, FreshRevision(trunk, Now(), b, p));
        r := SetParentRecomputingDivergence(b, p);
    }

    /** Records the parent a branch was built on, and where it left it. */
    method RecordPrior(b: string, prior: PriorParent) returns (ok: bool)
      requires prior.revision != ""
      modifies this`parents, this`revs
      ensures !ok ==> !reliable && Now() == old(Now())
      ensures ok ==> parents == old(parents)[b := prior.branch] && revs == old(revs)[b := prior.revision]
      ensures ok && old(Anchored(Now())) ==> (Anchored(Now()) <==> AtTip(git, prior.revision, b))
    {
      ok := Commit();
      if !ok { return; }
      if Anchored(Now()) { PriorAnchored(Now(), b, prior.branch, prior.revision); }
      parents, revs := parents[b := prior.branch], revs[b := prior.revision];
    }

    /** Tracks b under p when the parent it was built on is gone, recording that prior parent first. With the prior
        parent recorded and no write failing, it succeeds iff the move fits; otherwise the prior parent and revision
        stay behind, and b need not descend from that revision. */
    method TrackBranchPastLandedParent(b: string, p: string, prior: PriorParent) returns (r: Outcome)
      modifies this`parents, this`revs
      ensures reliable ==> !Faulted(r)
      ensures b == trunk || b == p ==> r.Failed? && Now() == old(Now())
      ensures r.Done? ==> parents == old(parents)[b := p]
      ensures r.Done? && git.Sound() && old(Anchored(Now())) ==> Anchored(Now())
      ensures r.Done? ==> Stored(revs, b) == FreshRevision(trunk, WithPrior(old(Now()), b, prior), b, p)
      ensures r.Done? ==> forall c :: c != b ==> Stored(revs, c) == Stored(old(revs), c)
      ensures b !in {trunk, p} && r != Failed(NoMetadataCommit) ==>
        (r.Done? <==> Fits(linearStacks, trunk, branches, WithPrior(old(Now()), b, prior), b, p))
      ensures b !in {trunk, p} && r.Failed? && r.why != NoMetadataCommit ==>
        if prior.branch == "" || prior.revision == "" || prior.branch == b then Now() == old(Now())
        else parents == old(parents)[b := prior.branch] && revs == old(revs)[b := prior.revision]
      ensures git == old(git) && branches == old(branches)
      ensures b !in {trunk, p} && r.Failed? && r.why != NoMetadataCommit ==> Now() == WithPrior(old(Now()), b, prior)
      ensures r == Failed(NoMetadataCommit) ==> Now() in {old(Now()), WithPrior(old(Now()), b, prior)}
      ensures r.Failed? && old(Anchored(Now())) && revs != old(revs) ==>
        (Anchored(Now()) <==> AtTip(git, prior.revision, b))
    {
      if b == trunk { return Failed(TrunkInBatch); }
      if b == p { return Failed(SelfParent); }
      if WorthRecording(b, prior) {
        var ok := RecordPrior(b, prior);
        if !ok { return Failed(NoMetadataCommit); }
      }
      r := SetParent(b, p, Recompute);
    }

    // ---------- Batches ----------

    /** The divergence points of a set of branches, read in one pass. */
    function BatchDivergencePoints(names: set<string>): (r: Revisions)
      reads this
      ensures Captured(trunk, Now(), r) && forall b :: b in r <==> b in names && OwnRange(trunk, Now(), b).Some?
      ensures r == CapturedPoints(trunk, Now(), names)
      ensures forall b :: b in names && b in git.tips && b != trunk && Stored(revs, b) != "" ==>
        b in r && r[b] == revs[b]
      ensures forall b :: b in names && b in git.tips && b != trunk && Stored(revs, b) == "" ==>
        var parent := if b in parents then parents[b] else trunk;
        (b in r <==> parent in git.tips) && (b in r ==> r[b] == git.tips[parent])
      ensures forall b :: b in names && b == trunk && b in git.tips ==> b in r && r[b] == git.tips[b]
      ensures forall b :: b in r ==> b in names && b in git.tips
    {
      CapturedPoints(trunk, Now(), names)
    }

    /** Makes already validated moves. All divergence points are read before the first move, so a branch whose parent
        moves in the same batch keeps the commits it owned. */
    method ReparentPreservingDivergence(moves: seq<Move>) returns (r: Outcome)
      modifies this`parents, this`revs
      ensures reliable ==> !Faulted(r)
      ensures r.Done? ==> parents == ApplyMoves(old(parents), moves)
      ensures r.Done? ==> SameRanges(trunk, old(Now()), Now())
      ensures old(Anchored(Now())) ==> Anchored(Now())
      ensures r != Failed(NoMetadataCommit) ==> (r.Done? <==> AllCanMove(trunk, old(Now()), moves))
      ensures PartWay(old(parents), moves, parents)
      ensures PinnedPartWay(old(Now()), moves, CapturedPoints(trunk, old(Now()), Movers(moves)), Now())
      ensures AllButOneKeep(trunk, old(Now()), Now(), moves)
      ensures r.Failed? ==> r.why in {SelfParent, NoMetadataCommit, NotAnAncestor, GitFailed, NoDivergencePoint}
      ensures Unreadable(trunk, old(Now()), moves) ==>
        r == Failed(NoDivergencePoint) && parents == old(parents) && revs == old(revs)
      ensures moves == [] ==> r.Done? && parents == old(parents) && revs == old(revs)
    {
      var divPoints := BatchDivergencePoints(Movers(moves));
      var ok := AllCaptured(moves, divPoints);
      if !ok {
        assert MovedFirst(parents, moves, 0, parents) && PinnedFirst(Now(), moves, divPoints, 0, Now());
        return Failed(NoDivergencePoint);
      }
      assert forall m :: m in moves ==> (CanPin(git, divPoints, m) <==> CanMove(trunk, Now(), m));
      PinnedRanges(trunk, Now(), moves, divPoints);
      r := PinAll(moves, divPoints);
      PartWayKeeps(trunk, old(Now()), moves, divPoints, Now());
    }

    /** A divergence point was captured for every mover. */
    method AllCaptured(moves: seq<Move>, divPoints: Revisions) returns (ok: bool)
      ensures ok <==> forall m :: m in moves ==> Stored(divPoints, m.branch) != ""
    {
      for i := 0 to |moves|
        invariant forall m :: m in moves[..i] ==> Stored(divPoints, m.branch) != ""
      {
        assert moves[..i + 1] == moves[..i] + [moves[i]];
        if Stored(divPoints, moves[i].branch) == "" { return false; }
      }
      assert moves[..|moves|] == moves;
      return true;
    }

    /** Makes the moves one after the other, pinning each branch at the divergence point captured for it. */
    method PinAll(moves: seq<Move>, divPoints: Revisions) returns (r: Outcome)
      requires forall m :: m in moves ==> Stored(divPoints, m.branch) != ""
      modifies this`parents, this`revs
      ensures reliable ==> !Faulted(r)
      ensures r.Done? ==>
        parents == ApplyMoves(old(parents), moves) && revs == PinRevisions(old(revs), moves, divPoints)
      ensures r.Done? ==> forall m :: m in moves ==> CanPin(git, divPoints, m)
      ensures r.Failed? && r.why != NoMetadataCommit ==> exists m :: m in moves && !CanPin(git, divPoints, m)
      ensures r.Failed? ==> r.why in {SelfParent, NoMetadataCommit, NotAnAncestor, GitFailed}
      ensures PartWay(old(parents), moves, parents)
      ensures PinnedPartWay(old(Now()), moves, divPoints, Now())
      ensures moves == [] ==> r.Done?
    {
      for i := 0 to |moves|
        invariant parents == ApplyMoves(old(parents), moves[..i])
        invariant revs == PinRevisions(old(revs), moves[..i], divPoints)
        invariant forall j :: 0 <= j < i ==> CanPin(git, divPoints, moves[j])
      {
        var m := moves[i];
        assert moves[..i + 1][..i] == moves[..i];
        r := SetParentPreservingDivergence(m.branch, m.newParent, divPoints[m.branch]);
        if r.Failed? {
          assert m in moves && PinnedFirst(old(Now()), moves, divPoints, i, Now());
          StoppedAt(old(parents), moves, i, parents);
          return;
        }
      }
      NeverStopped(old(parents), moves);
      assert PinnedFirst(old(Now()), moves, divPoints, |moves|, Now());
      return Done;
    }

    /** Reparents a batch, keeping every branch's own commits. Judged as a whole before anything changes. */
    method ReparentBranchesToParents(moves: seq<Move>) returns (r: Outcome)
      modifies this`parents, this`revs
      ensures reliable ==> !Faulted(r)
      ensures r.Done? && linearStacks ==>
        Step(trunk, old(Shape(branches, parents)), ReparentBatch(moves), Shape(branches, parents))
      ensures r.Done? ==> old(Accepted(moves, [])) && parents == ApplyMoves(old(parents), moves)
      ensures r.Done? ==> SameRanges(trunk, old(Now()), Now())
      ensures old(Anchored(Now())) ==> Anchored(Now())
      ensures AllButOneKeep(trunk, old(Now()), Now(), moves)
      ensures r.Failed? ==>
        r.why in {NotLinear, SelfParent, NoMetadataCommit, NotAnAncestor, GitFailed, NoDivergencePoint}
      ensures r == Failed(NotLinear) <==> !old(Accepted(moves, []))
      ensures r == Failed(NotLinear) ==> parents == old(parents) && revs == old(revs)
      ensures old(Accepted(moves, [])) && r != Failed(NoMetadataCommit) ==>
        (r.Done? <==> AllCanMove(trunk, old(Now()), moves))
      ensures PartWay(old(parents), moves, parents)
      ensures old(Accepted(moves, [])) && Unreadable(trunk, old(Now()), moves) ==>
        (r == Failed(NoDivergencePoint) && parents == old(parents) && revs == old(revs))
      ensures moves == [] ==> r.Done? && parents == old(parents) && revs == old(revs)
    {
      var ok := Validate(moves, []);
      assert MovedFirst(parents, moves, 0, parents);
      if !ok { return Failed(NotLinear); }
      r := ReparentPreservingDivergence(moves);
    }

    /** Reparents a batch, giving each branch a fresh merge base. Judged as a whole first, then again move by move. */
    method ReparentBranchesRecomputing(moves: seq<Move>) returns (r: Outcome)
      modifies this`parents, this`revs
      ensures reliable ==> !Faulted(r)
      ensures r.Done? ==> old(Accepted(moves, [])) && parents == ApplyMoves(old(parents), moves)
      ensures r.Done? && git.Sound() && old(Anchored(Now())) ==> Anchored(Now())
      ensures r.Done? ==> forall b :: !IsMover(moves, b) ==> Stored(revs, b) == Stored(old(revs), b)
      ensures r.Done? && OncePerBranch(RecomputesOf(moves)) ==>
        Refreshed(trunk, old(Now()), Now(), RecomputesOf(moves), |moves|)
      ensures r.Done? && OncePerBranch(RecomputesOf(moves)) ==> forall j :: 0 <= j < |moves| ==>
        Stored(revs, moves[j].branch) == FreshRevision(trunk, old(Now()), moves[j].branch, moves[j].newParent)
      ensures !old(Accepted(moves, [])) ==> r == Failed(NotLinear) && Now() == old(Now())
      ensures old(Accepted(moves, [])) && r != Failed(NoMetadataCommit) ==>
        (r.Done? <==> CanRecompute(linearStacks, trunk, branches, old(Now()), moves, |moves|))
      ensures PartWay(old(parents), moves, parents)
    {
      var ok := Validate(moves, []);
      assert MovedFirst(parents, moves, 0, parents);
      if !ok { return Failed(NotLinear); }
      r := RecomputeAll(moves);
    }

    method RecomputeAll(moves: seq<Move>) returns (r: Outcome)
      modifies this`parents, this`revs
      ensures reliable ==> !Faulted(r)
      ensures r.Done? ==> parents == ApplyMoves(old(parents), moves)
      ensures r.Done? && git.Sound() && old(Anchored(Now())) ==> Anchored(Now())
      ensures r.Done? ==> forall b :: !IsMover(moves, b) ==> Stored(revs, b) == Stored(old(revs), b)
      ensures r.Done? ==> UpTo(trunk, old(Now()), Now(), RecomputesOf(moves), |moves|)
      ensures r != Failed(NoMetadataCommit) ==>
        (r.Done? <==> CanRecompute(linearStacks, trunk, branches, old(Now()), moves, |moves|))
      ensures PartWay(old(parents), moves, parents)
    {
      for i := 0 to |moves|
        invariant parents == ApplyMoves(old(parents), moves[..i])
        invariant git.Sound() && old(Anchored(Now())) ==> Anchored(Now())
        invariant forall b :: !IsMover(moves[..i], b) ==> Stored(revs, b) == Stored(old(revs), b)
        invariant UpTo(trunk, old(Now()), Now(), RecomputesOf(moves), i)
        invariant CanRecompute(linearStacks, trunk, branches, old(Now()), moves, i)
      {
        r := RecomputeNext(moves, i, old(Now()));
        if r.Failed? {
          StoppedAt(old(parents), moves, i, parents);
          return;
        }
      }
      NeverStopped(old(parents), moves);
      return Done;
    }

    /** One move in recompute mode: it either fits, and leaves its branch its fresh revision, or changes nothing. */
    method Recomputed(m: Move) returns (r: Outcome)
      modifies this`parents, this`revs
      ensures reliable ==> !Faulted(r)
      ensures r.Failed? ==> Now() == old(Now())
      ensures r.Done? ==> parents == old(parents)[m.branch := m.newParent] && git.MergeBase(m.branch, m.newParent).Some?
      ensures r.Done? ==> revs == old(revs)[m.branch := FreshRevision(trunk, old(Now()), m.branch, m.newParent)]
      ensures r.Done? && git.Sound() && old(Anchored(Now())) ==> Anchored(Now())
      ensures r != Failed(NoMetadataCommit) ==> (r.Done? <==>
        m.branch != m.newParent && Fits(linearStacks, trunk, branches, old(Now()), m.branch, m.newParent))
    {
      r := SetParent(m.branch, m.newParent, Recompute);
    }

    /** One more move of a batch that started from s. */
    method RecomputeNext(moves: seq<Move>, i: nat, ghost s: Snapshot) returns (r: Outcome)
      requires i < |moves| && git == s.git && parents == ApplyMoves(s.parents, moves[..i])
      requires UpTo(trunk, s, Now(), RecomputesOf(moves), i)
      requires forall b :: !IsMover(moves[..i], b) ==> Stored(revs, b) == Stored(s.revs, b)
      modifies this`parents, this`revs
      ensures reliable ==> !Faulted(r)
      ensures r.Failed? ==> parents == old(parents)
      ensures r.Done? ==> parents == ApplyMoves(s.parents, moves[..i + 1])
      ensures r.Done? && git.Sound() && old(Anchored(Now())) ==> Anchored(Now())
      ensures r.Done? ==> UpTo(trunk, s, Now(), RecomputesOf(moves), i + 1)
      ensures r.Done? ==> forall b :: !IsMover(moves[..i + 1], b) ==> Stored(revs, b) == Stored(s.revs, b)
      ensures r != Failed(NoMetadataCommit) ==>
        (r.Done? <==> CanRecomputeNext(linearStacks, trunk, branches, s, moves, i))
    {
      ghost var at := Now();
      assert moves[..i + 1] == moves[..i] + [moves[i]] && moves[..i + 1][..i] == moves[..i];
      MoverAppend(moves[..i], moves[i]);
      r := Recomputed(moves[i]);
      if r.Done? { UpToNext(trunk, s, at, Now(), RecomputesOf(moves), i); }
    }

    /** One update of a cleanup batch. */
    method ApplyUpdate(u: ParentUpdate, divPoints: Revisions) returns (r: Outcome)
      requires u.branch != u.newParent
      modifies this`parents, this`revs
      ensures reliable ==> !Faulted(r)
      ensures r.Done? ==> parents == old(parents)[u.branch := u.newParent]
      ensures r.Done? ==> forall b :: b != u.branch ==> Stored(revs, b) == Stored(old(revs), b)
      ensures r.Done? && u.mode == Preserve ==> Stored(revs, u.branch) == Stored(divPoints, u.branch) != ""
      ensures r.Done? && u.mode == Recompute ==> git.MergeBase(u.branch, u.newParent).Some?
      ensures r.Done? && u.mode == Recompute ==>
        Stored(revs, u.branch) == FreshRevision(trunk, old(Now()), u.branch, u.newParent)
      ensures r.Done? && git.Sound() && old(Anchored(Now())) ==> Anchored(Now())
      ensures r.Failed? ==>
        r.why !in {NotLinear, SelfParent} && parents in {old(parents), old(parents)[u.branch := u.newParent]}
      ensures r != Failed(NoMetadataCommit) ==> (r.Done? <==> CanApply(git, divPoints, u))
    {
      match u.mode
      case Preserve =>
        if Stored(divPoints, u.branch) == "" { return Failed(NoDivergencePoint); }
        r := SetParentPreservingDivergence(u.branch, u.newParent, divPoints[u.branch]);
      case Recompute =>
        r := SetParentRecomputingDivergence(u.branch, u.newParent);
    }

    /** Applies a cleanup's parent updates, judging the graph that is left once the removed branches are gone. */
    method ApplyParentUpdatesAfterRemovals(updates: seq<ParentUpdate>, removed: seq<string>) returns (r: Outcome)
      modifies this`parents, this`revs
      ensures reliable ==> !Faulted(r)
      ensures r.Done? ==>
        old(Accepted(MovesOf(updates), removed)) && parents == ApplyMoves(old(parents), MovesOf(updates))
      ensures r.Done? ==> PreservedKeepRanges(trunk, old(Now()), Now(), updates)
      ensures r.Done? ==> PinnedOrKept(trunk, old(Now()), Now(), updates)
      ensures r.Done? && OncePerBranch(updates) ==> Refreshed(trunk, old(Now()), Now(), updates, |updates|)
      ensures r.Done? && git.Sound() && old(Anchored(Now())) ==> Anchored(Now())
      ensures r == Failed(NotLinear) <==>
        (forall u :: u in updates ==> u.branch != u.newParent) && !old(Accepted(MovesOf(updates), removed))
      ensures r.Failed? && r.why in {SelfParent, NotLinear} ==> parents == old(parents) && revs == old(revs)
      ensures updates == [] ==> r.Done? && revs == old(revs)
      ensures PartWay(old(parents), MovesOf(updates), parents)
      ensures old(Accepted(MovesOf(updates), removed)) && r != Failed(NoMetadataCommit) ==>
        (r.Done? <==> AllCanUpdate(trunk, old(Now()), updates))
    {
      assert MovedFirst(parents, MovesOf(updates), 0, parents);
      if updates == [] { return Done; }
      for i := 0 to |updates|
        invariant forall u :: u in updates[..i] ==> u.branch != u.newParent
      {
        assert updates[..i + 1] == updates[..i] + [updates[i]];
        if updates[i].branch == updates[i].newParent { return Failed(SelfParent); }
      }
      assert updates[..|updates|] == updates;
      var moves := MovesOf(updates);
      var ok := Validate(moves, removed);
      if !ok { return Failed(NotLinear); }

      var divPoints := BatchDivergencePoints(set u | u in updates && u.mode == Preserve :: u.branch);
      ghost var before := Now();
      forall u | u in updates ensures CanApply(git, divPoints, u) <==> CanUpdate(trunk, before, u) {}
      r := ApplyAll(updates, moves, divPoints);
      if r.Done? { KeptRanges(trunk, before, revs, updates, moves, divPoints); }
    }

    method ApplyAll(updates: seq<ParentUpdate>, ghost moves: seq<Move>, divPoints: Revisions) returns (r: Outcome)
      requires moves == MovesOf(updates) && forall u :: u in updates ==> u.branch != u.newParent
      modifies this`parents, this`revs
      ensures reliable ==> !Faulted(r)
      ensures r.Done? ==> parents == ApplyMoves(old(parents), moves) && Kept(updates, moves, divPoints, old(revs), revs)
      ensures r.Done? && OncePerBranch(updates) ==> Refreshed(trunk, old(Now()), Now(), updates, |updates|)
      ensures r.Done? && git.Sound() && old(Anchored(Now())) ==> Anchored(Now())
      ensures r.Failed? ==> r.why !in {NotLinear, SelfParent}
      ensures PartWay(old(parents), moves, parents)
      ensures r != Failed(NoMetadataCommit) ==> (r.Done? <==> CanApplyFirst(git, divPoints, updates, |updates|))
    {
      for i := 0 to |updates|
        invariant Updated(trunk, old(Now()), Now(), updates, moves, divPoints, i)
        invariant git.Sound() && old(Anchored(Now())) ==> Anchored(Now())
        invariant CanApplyFirst(git, divPoints, updates, i)
      {
        ghost var at := Now();
        r := ApplyUpdate(updates[i], divPoints);
        if r.Failed? {
          StoppedAt(old(parents), moves, i, parents);
          return;
        }
        UpdatedNext(trunk, old(Now()), at, Now(), updates, moves, divPoints, i);
      }
      NeverStopped(old(parents), moves);
      return Done;
    }

    // ---------- Deletion ----------

    method ChildrenOf(b: string) returns (q: seq<string>)
      ensures forall c :: c in q <==> c in parents && parents[c] == b
    {
      var any := ListAny(set c | c in parents && parents[c] == b);
      SortSorts(any);
      q := Sort(any);
      assert forall c :: c in q <==> c in Elems(q);
    }

    /** Sends each surviving child of a deleted branch straight to the nearest parent that outlives the batch. */
    method PlanDeletionMoves(batch: seq<string>) returns (moves: seq<Move>)
      requires trunk !in batch
      ensures MovesTheChildren(parents, batch, moves) &&
        forall m :: m in moves ==> IsDeletionMove(parents, trunk, batch, m)
    {
      var up := BatchParents(parents, trunk, batch);
      moves := [];
      for i := 0 to |batch|
        invariant forall m :: m in moves ==> IsDeletionMove(parents, trunk, batch, m)
        invariant forall b :: b in parents && b !in batch && parents[b] in batch[..i] ==> IsMover(moves, b)
      {
        assert batch[..i + 1] == batch[..i] + [batch[i]];
        var children := ChildrenOf(batch[i]);
        for j := 0 to |children|
          invariant forall m :: m in moves ==> IsDeletionMove(parents, trunk, batch, m)
          invariant forall b :: b in parents && b !in batch && (parents[b] in batch[..i] || b in children[..j]) ==>
            IsMover(moves, b)
        {
          var c := children[j];
          assert children[..j + 1] == children[..j] + [c] && c in children;
          if c !in batch {
            var p := NearestSurvivingParent(up[batch[i]], up, Elems(batch), trunk);
            MoverAppend(moves, Move(c, p));
            moves := moves + [Move(c, p)];
          }
        }
        assert children[..|children|] == children;
      }
      assert batch[..|batch|] == batch;
    }

    /** Deletes the refs and metadata of a batch and drops its branches from the state. */
    method RemoveBranches(batch: seq<string>)
      modifies this`branches, this`parents, this`revs, this`git
      ensures Now() == SnapshotWithout(old(Now()), batch) && branches == Without(old(branches), batch)
      ensures RefsGone(old(branches), old(git), batch, branches, git)
      ensures forall b :: b in batch ==> b !in parents && b !in revs
    {
      git := git.(tips := Except(git.tips, batch));
      branches, parents, revs := Without(branches, batch), Except(parents, batch), Except(revs, batch);
    }

    /** Removes a batch, then makes the moves. Divergence points are read after the refs are gone, so a child without a
        stored revision it descends from can no longer be moved, and the moves stop there. */
    method RemoveAndReparent(batch: seq<string>, moves: seq<Move>) returns (r: Outcome)
      requires trunk !in batch && Accepted(moves, batch) && MovesTheChildren(parents, batch, moves)
      modifies this`branches, this`parents, this`revs, this`git
      ensures reliable ==> !Faulted(r)
      ensures branches == Without(old(branches), batch) && git == SnapshotWithout(old(Now()), batch).git
      ensures r.Done? ==> parents == ParentsAfter(old(parents), moves, batch)
      ensures r.Done? ==> SurvivorsKeepRanges(trunk, old(Now()), Now(), batch)
      ensures SameRanges(trunk, SnapshotWithout(old(Now()), batch), Now())
      ensures old(Anchored(Now())) ==> Anchored(Now())
      ensures r != Failed(NoMetadataCommit) ==>
        (r.Done? <==> AllCanMove(trunk, SnapshotWithout(old(Now()), batch), moves))
      ensures PartWay(Except(old(parents), batch), moves, parents)
      ensures Unpinned(trunk, old(revs), moves) ==>
        r == Failed(NoDivergencePoint) && parents == Except(old(parents), batch)
      ensures !Refused(r)
      ensures moves == [] ==> r.Done?
    {
      if linearStacks { AcceptedAfterRemoval(trunk, branches, parents, moves, batch); }
      assert Anchored(Now()) ==> Anchored(SnapshotWithout(Now(), batch)) by {
        RangesAfterRemoval(trunk, Now(), batch, moves);
      }
      RemoveBranches(batch);
      assert Accepted(moves, []);
      if Unpinned(trunk, old(revs), moves) { UnpinnedIsUnreadable(trunk, old(Now()), batch, moves); }
      r := ReparentBranchesToParents(moves);
      if !Unpinned(trunk, old(revs), moves) { PinnedKeep(trunk, old(Now()), batch, moves, Now()); }
      if r.Done? { RangesThroughDeletion(trunk, old(Now()), Now(), batch, moves); }
    }

    /** The same, with what it needs and leaves told of the batch's children. */
    method RemoveWithChildren(batch: seq<string>, moves: seq<Move>) returns (r: Outcome)
      requires trunk !in batch && Accepted(moves, batch) && MovesTheChildren(parents, batch, moves)
      modifies this`branches, this`parents, this`revs, this`git
      ensures reliable ==> !Faulted(r)
      ensures !Refused(r) && branches == Without(old(branches), batch)
      ensures RefsGone(old(branches), old(git), batch, branches, git)
      ensures r.Done? ==> parents == ParentsAfter(old(parents), moves, batch)
      ensures r.Done? && linearStacks ==>
        Step(trunk, old(Shape(branches, parents)), DeleteBatch(batch), Shape(branches, parents))
      ensures r.Done? ==> SurvivorsKeepRanges(trunk, old(Now()), Now(), batch)
      ensures SurvivorsRead(trunk, old(Now()), Now(), batch)
      ensures old(Anchored(Now())) ==> Anchored(Now())
      ensures r.Done? ==> AllRooted(old(Now()), Stranded(old(parents), batch) - {trunk})
      ensures (forall m :: m in moves ==> m.branch !in {trunk, m.newParent}) && r != Failed(NoMetadataCommit) ==>
        (r.Done? <==> AllRooted(old(Now()), Stranded(old(parents), batch)))
      ensures PartWay(Except(old(parents), batch), moves, parents)
      ensures moves == [] ==> r.Done?
    {
      ghost var before := Now();
      RootedCanMove(trunk, before, batch, moves);
      r := RemoveAndReparent(batch, moves);
      RefsAreGone(old(branches), before, batch);
      SurvivorsReadAfter(trunk, before, Now(), batch, moves);
      if r.Done? && linearStacks {
        DeletionSteps(trunk, old(Shape(branches, parents)), batch, moves, Shape(branches, parents));
      }
    }

    /** Deletes a batch whose planned moves the validator let through. */
    method DeletePlanned(batch: seq<string>, moves: seq<Move>) returns (r: Outcome)
      requires trunk !in batch && Accepted(moves, batch) && MovesTheChildren(parents, batch, moves)
      requires forall m :: m in moves ==> IsDeletionMove(parents, trunk, batch, m)
      modifies this`branches, this`parents, this`revs, this`git, this`currentBranch
      ensures reliable ==> !Faulted(r)
      ensures Refused(r) ==> r == Failed(RefsNotDeleted) && Now() == old(Now()) && branches == old(branches)
      ensures !Refused(r) ==> branches == Without(old(branches), batch)
      ensures !Refused(r) ==> RefsGone(old(branches), old(git), batch, branches, git)
      ensures r.Done? ==>
        parents == ParentsAfter(old(parents), moves, batch) && SurvivorsKeepRanges(trunk, old(Now()), Now(), batch)
      ensures !Refused(r) ==> SurvivorsRead(trunk, old(Now()), Now(), batch)
      ensures r.Done? && linearStacks ==>
        Step(trunk, old(Shape(branches, parents)), DeleteBatch(batch), Shape(branches, parents))
      ensures old(Anchored(Now())) ==> Anchored(Now())
      ensures r.Done? ==> AllRooted(old(Now()), Stranded(old(parents), batch) - {trunk})
      ensures old(MovesLead(parents, trunk, batch)) && !Refused(r) && r != Failed(NoMetadataCommit) ==>
        (r.Done? <==> AllRooted(old(Now()), Stranded(old(parents), batch)))
      ensures !Refused(r) ==> GonePartWay(old(parents), trunk, batch, parents)
      ensures moves == [] ==> r.Done? || r == Failed(RefsNotDeleted)
      ensures !Refused(r) ==> currentBranch == if old(currentBranch) in batch then trunk else old(currentBranch)
      ensures currentBranch in {trunk, old(currentBranch)}
    {
      if currentBranch in batch {
        if !reliable { if * { return Failed(RefsNotDeleted); } }
        currentBranch := trunk;
      }
      if !reliable { if * { return Failed(RefsNotDeleted); } }
      r := RemoveWithChildren(batch, moves);
      PartWayGone(old(parents), trunk, batch, moves, parents);
    }

    /** Deletes a batch of branches at once and sends each surviving child to its nearest surviving ancestor. On a
        forest, once the refs are gone and no write fails, it succeeds iff every child of the batch is rooted in its
        stored revision. */
    method DeleteBranches(batch: seq<string>) returns (r: Outcome, restack: set<string>)
      modifies this`branches, this`parents, this`revs, this`git, this`currentBranch
      ensures reliable ==> !Faulted(r)
      ensures batch == [] ==> r.Done? && Now() == old(Now()) && branches == old(branches)
      ensures r == Failed(TrunkInBatch) <==> trunk in batch
      ensures r == Failed(NotLinear) <==>
        batch != [] && trunk !in batch && linearStacks && !old(DeletionFits(branches, parents, trunk, batch))
      ensures Refused(r) ==> Now() == old(Now()) && branches == old(branches)
      ensures r.Done? ==> GoneEntirely(old(parents), trunk, batch, parents)
      ensures RefsGone(old(branches), old(git), if Refused(r) then [] else batch, branches, git)
      ensures r.Done? && old(WellFormed(parents, trunk)) ==> DeletionResult(old(parents), Elems(batch), parents)
      ensures r.Done? ==> SurvivorsKeepRanges(trunk, old(Now()), Now(), batch)
      ensures !Refused(r) ==> SurvivorsRead(trunk, old(Now()), Now(), batch)
      ensures old(Anchored(Now())) ==> Anchored(Now())
      ensures r.Done? && linearStacks ==>
        Step(trunk, old(Shape(branches, parents)), DeleteBatch(batch), Shape(branches, parents))
      ensures old(Closed(branches, parents, trunk) && WellFormed(parents, trunk)) ==>
        (old(Linear(branches, parents, trunk)) ==> r != Failed(NotLinear))
      ensures r.Done? ==> restack == Stranded(old(parents), batch)
      ensures trunk !in batch && Stranded(old(parents), batch) == {} ==> r.Done? || r == Failed(RefsNotDeleted)
      ensures !Refused(r) ==> currentBranch == if old(currentBranch) in batch then trunk else old(currentBranch)
      ensures r in {Failed(TrunkInBatch), Failed(NotLinear)} ==> currentBranch == old(currentBranch)
      ensures currentBranch in {trunk, old(currentBranch)}
      ensures r.Done? ==> AllRooted(old(Now()), Stranded(old(parents), batch) - {trunk})
      ensures old(WellFormed(parents, trunk)) && !Refused(r) && r != Failed(NoMetadataCommit) ==>
        (r.Done? <==> AllRooted(old(Now()), Stranded(old(parents), batch)))
      ensures old(MovesLead(parents, trunk, batch)) && !Refused(r) && r != Failed(NoMetadataCommit) ==>
        (r.Done? <==> AllRooted(old(Now()), Stranded(old(parents), batch)))
      ensures !Refused(r) ==>
        branches == Without(old(branches), batch) && GonePartWay(old(parents), trunk, batch, parents)
    {
      restack := {};
      if batch == [] {
        WithoutNothing(branches, parents);
        assert Stranded(parents, batch) == {};
        forall b | b in parents
          ensures IsNearest(parents, {}, parents[b], parents[b])
        {
          NearestStep(parents, {}, parents[b], parents[b]);
        }
        return Done, restack;
      }
      if trunk in batch { return Failed(TrunkInBatch), restack; }
      var moves := PlanDeletionMoves(batch);
      restack := Movers(moves);
      SurvivingChildrenAre(parents, batch, moves);
      var ok := Validate(moves, batch);
      DeletionIsSafe(trunk, branches, parents, batch, moves);
      MovesGone(parents, trunk, batch, moves);
      DeletionVerdict(branches, parents, trunk, batch, moves);
      if WellFormed(parents, trunk) { ForestMovesLead(parents, trunk, batch); }
      if !ok { return Failed(NotLinear), restack; }
      r := DeletePlanned(batch, moves);
    }

    /** Deletes one branch and hands its children to its parent. A refused deletion may already have left the deleted
        branch's checkout for trunk. No branch is loaded or set as its own parent. */
    method DeleteBranch(b: string) returns (r: Outcome)
      requires b in parents ==> parents[b] != b
      modifies this`branches, this`parents, this`revs, this`git, this`currentBranch
      ensures reliable ==> !Faulted(r)
      ensures r == Failed(TrunkInBatch) <==> b == trunk
      ensures r == Failed(NotLinear) ==> b != trunk && linearStacks && !old(HandoverFits(branches, parents, trunk, b))
      ensures b != trunk && linearStacks && !old(HandoverFits(branches, parents, trunk, b)) ==>
        r == Failed(NotLinear) || Faulted(r)
      ensures Refused(r) ==> Now() == old(Now()) && branches == old(branches)
      ensures r.Done? && old(WellFormed(parents, trunk)) ==> DeletionResult(old(parents), {b}, parents)
      ensures r.Done? ==> SurvivorsKeepRanges(trunk, old(Now()), Now(), [b])
      ensures !Refused(r) ==> SurvivorsRead(trunk, old(Now()), Now(), [b])
      ensures old(Anchored(Now())) ==> Anchored(Now())
      ensures r.Done? && linearStacks ==>
        Step(trunk, old(Shape(branches, parents)), DeleteBatch([b]), Shape(branches, parents))
      ensures old(Closed(branches, parents, trunk) && WellFormed(parents, trunk)) ==>
        (old(Linear(branches, parents, trunk)) ==> r != Failed(NotLinear))
      ensures r == Failed(NotLinear) || !Refused(r) ==>
        currentBranch == if old(currentBranch) == b then trunk else old(currentBranch)
      ensures currentBranch in {trunk, old(currentBranch)}
      ensures r.Done? ==> AllRooted(old(Now()), Stranded(old(parents), [b]) - {trunk})
      ensures old(WellFormed(parents, trunk)) && !Refused(r) && r != Failed(NoMetadataCommit) ==>
        (r.Done? <==> AllRooted(old(Now()), Stranded(old(parents), [b])))
      ensures RefsGone(old(branches), old(git), if Refused(r) then [] else [b], branches, git)
      ensures !Refused(r) ==> branches == Without(old(branches), [b]) && HandedOver(old(parents), trunk, b, parents)
    {
      if b == trunk { return Failed(TrunkInBatch); }
      var moves := PlanHandover(b);
      if b == currentBranch {
        if !reliable { if * { return Failed(RefsNotDeleted); } }
        currentBranch := trunk;
      }
      var ok := Validate(moves, [b]);
      if !ok { return Failed(NotLinear); }
      if !reliable { if * { return Failed(RefsNotDeleted); } }
      r := RemoveSingle(b, moves);
    }

    /** Sends each child of a branch to its parent, or to trunk if it has none. */
    method PlanHandover(b: string) returns (moves: seq<Move>)
      requires b != trunk && (b in parents ==> parents[b] != b)
      ensures AreHandovers(parents, trunk, b, moves)
      ensures WellFormed(parents, trunk) ==> forall m :: m in moves ==> m.branch !in {trunk, m.newParent}
      ensures WellFormed(parents, trunk) ==> DeletionResult(parents, {b}, ParentsAfter(parents, moves, [b]))
      ensures WellFormed(parents, trunk) && Closed(branches, parents, trunk) && Linear(branches, parents, trunk) ==>
        LinearAfter(trunk, branches, parents, moves, [b])
      ensures HandoverFits(branches, parents, trunk, b) <==>
        moves == [] || LinearAfter(trunk, branches, parents, moves, [b])
    {
      var children := ChildrenOf(b);
      var parent := ParentOrTrunk(parents, trunk, b);
      moves := seq(|children|, i requires 0 <= i < |children| => Move(children[i], parent));
      SingleDeletionIsSafe(trunk, branches, parents, b, children, moves);
      HandoverVerdict(branches, parents, trunk, b, moves);
    }

    /** Removes one branch and hands its children to its parent. */
    method RemoveSingle(b: string, moves: seq<Move>) returns (r: Outcome)
      requires b != trunk && AreHandovers(parents, trunk, b, moves) && Accepted(moves, [b])
      requires WellFormed(parents, trunk) ==> forall m :: m in moves ==> m.branch !in {trunk, m.newParent}
      requires WellFormed(parents, trunk) ==> DeletionResult(parents, {b}, ParentsAfter(parents, moves, [b]))
      modifies this`branches, this`parents, this`revs, this`git
      ensures (reliable ==> !Faulted(r)) && !Refused(r)
      ensures r.Done? && old(WellFormed(parents, trunk)) ==> DeletionResult(old(parents), {b}, parents)
      ensures r.Done? ==> SurvivorsKeepRanges(trunk, old(Now()), Now(), [b])
      ensures SurvivorsRead(trunk, old(Now()), Now(), [b])
      ensures old(Anchored(Now())) ==> Anchored(Now())
      ensures r.Done? && linearStacks ==>
        Step(trunk, old(Shape(branches, parents)), DeleteBatch([b]), Shape(branches, parents))
      ensures r.Done? ==> AllRooted(old(Now()), Stranded(old(parents), [b]) - {trunk})
      ensures old(WellFormed(parents, trunk)) && r != Failed(NoMetadataCommit) ==>
        (r.Done? <==> AllRooted(old(Now()), Stranded(old(parents), [b])))
      ensures RefsGone(old(branches), old(git), [b], branches, git)
      ensures branches == Without(old(branches), [b]) && HandedOver(old(parents), trunk, b, parents)
    {
      assert forall m :: m in moves ==> m.branch != b;
      r := RemoveWithChildren([b], moves);
      SingleGone(old(parents), trunk, b, moves, parents);
    }
  }
}
