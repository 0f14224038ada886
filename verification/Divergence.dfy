/** What git answers, when a branch counts as landed, and the range of commits a branch owns. */
module Divergence {
  import opened Wrappers
  import opened Forest

  /** Git as an oracle. Commits are strings, like branch names; tips are the branch refs. */
  datatype Git = Git(
    tips: map<string, string>,
    reaches: (string, string) -> bool,             // the first commit is the second one or an ancestor of it
    mergeBase: (string, string) -> Option<string>, // of two commits
    merged: (string, string) -> bool,              // ancestry or per-commit merge; an error reads as false
    squashMerged: (string, string) -> bool,        // aggregate patch match; an error reads as false
    prMerged: string -> bool)                      // the recorded PR state is "merged"
  {
    /** A merge base is an ancestor of the commit it was computed for, and no ref or commit has an empty name. */
    ghost predicate Sound() {
      (forall x, y :: mergeBase(x, y).Some? ==> mergeBase(x, y).value != "" && reaches(mergeBase(x, y).value, x)) &&
      "" !in tips && forall b :: b in tips ==> tips[b] != ""
    }

    /** Whether a commit is an ancestor of a branch; None when the branch has no ref. */
    function IsAncestor(commit: string, branch: string): Option<bool> {
      if branch in tips then Some(reaches(commit, tips[branch])) else None
    }

    function MergeBase(a: string, b: string): Option<string> {
      if a in tips && b in tips then mergeBase(tips[a], tips[b]) else None
    }
  }

  /** Whether a branch's changes have landed in target: a merged PR always counts, git evidence only for trunk. */
  predicate BranchLanded(git: Git, trunk: string, branch: string, target: string) {
    branch != trunk &&
    (git.prMerged(branch) ||
      (target != "" && target == trunk && (git.merged(branch, target) || git.squashMerged(branch, target))))
  }

  type Revisions = map<string, string>

  /** The divergence revision stored for a branch, or "". */
  function Stored(revs: Revisions, b: string): string {
    if b in revs then revs[b] else ""
  }

  datatype RevRange = RevRange(base: string, head: string)

  /** Git and the branch metadata at one moment. */
  datatype Snapshot = Snapshot(git: Git, parents: ParentMap, revs: Revisions)

  /** The commits a branch owns: from its stored revision, or failing that its parent's tip, to its own tip. */
  function OwnRange(trunk: string, s: Snapshot, b: string): Option<RevRange> {
    if b !in s.git.tips then None
    else if b == trunk then Some(RevRange(s.git.tips[b], s.git.tips[b]))
    else if Stored(s.revs, b) != "" then Some(RevRange(Stored(s.revs, b), s.git.tips[b]))
    else if ParentOrTrunk(s.parents, trunk, b) in s.git.tips then
      Some(RevRange(s.git.tips[ParentOrTrunk(s.parents, trunk, b)], s.git.tips[b]))
    else None
  }

  /** A branch's own commits end at its tip. They start at its stored revision, or without one at the tip of its parent,
      trunk where none is recorded; trunk owns none, and a branch without those refs cannot be read. */
  lemma OwnRangeIs(trunk: string, s: Snapshot, b: string)
    ensures b !in s.git.tips ==> OwnRange(trunk, s, b).None?
    ensures OwnRange(trunk, s, b).Some? ==> b in s.git.tips && OwnRange(trunk, s, b).value.head == s.git.tips[b]
    ensures b in s.git.tips && b == trunk ==>
      OwnRange(trunk, s, b).Some? && OwnRange(trunk, s, b).value.base == s.git.tips[b]
    ensures b in s.git.tips && b != trunk && b in s.revs && s.revs[b] != "" ==>
      OwnRange(trunk, s, b).Some? && OwnRange(trunk, s, b).value.base == s.revs[b]
    ensures b in s.git.tips && b != trunk && !(b in s.revs && s.revs[b] != "") ==>
      var parent := if b in s.parents then s.parents[b] else trunk;
      (OwnRange(trunk, s, b).Some? <==> parent in s.git.tips) &&
      (parent in s.git.tips ==> OwnRange(trunk, s, b).value.base == s.git.tips[parent])
  {
  }

  /** Every branch owns the commits it did. */
  ghost predicate SameRanges(trunk: string, s: Snapshot, s': Snapshot) {
    forall b :: OwnRange(trunk, s, b) == OwnRange(trunk, s', b)
  }

  /** The divergence point looked up for one branch. */
  function DivergencePoint(trunk: string, s: Snapshot, b: string): Option<string> {
    if Stored(s.revs, b) != "" then Some(s.revs[b])
    else if b !in s.parents then None
    else
      var parent := if s.parents[b] == "" then trunk else s.parents[b];
      if parent in s.git.tips then Some(s.git.tips[parent]) else None
  }

  ghost predicate AtTip(git: Git, rev: string, b: string) {
    b in git.tips && git.reaches(rev, git.tips[b])
  }

  /** b stores a divergence revision, and descends from it. */
  ghost predicate Rooted(s: Snapshot, b: string) {
    Stored(s.revs, b) != "" && AtTip(s.git, s.revs[b], b)
  }

  /** Every stored divergence revision is an ancestor of its branch's tip. */
  ghost predicate Anchored(s: Snapshot) {
    forall b :: Stored(s.revs, b) != "" ==> AtTip(s.git, s.revs[b], b)
  }

  /** Whether recomputing the divergence point of b for a new parent keeps the stored revision: it is an ancestor of b
      still, and the old parent, or that revision itself, has landed in the new parent. */
  predicate KeepsRevision(git: Git, trunk: string, b: string, oldParent: string, oldRev: string, newParent: string) {
    oldParent != "" && oldParent != newParent && oldRev != "" && git.IsAncestor(oldRev, b) == Some(true) &&
    (BranchLanded(git, trunk, oldParent, newParent) || BranchLanded(git, trunk, oldRev, newParent) ||
      git.merged(oldParent, newParent))
  }

  /** What recomputing the divergence point of b for a new parent leaves stored: the old revision if it is to be kept,
      and otherwise the merge base. */
  function FreshRevision(trunk: string, s: Snapshot, b: string, newParent: string): string {
    if KeepsRevision(s.git, trunk, b, Parent(s.parents, b), Stored(s.revs, b), newParent) then Stored(s.revs, b)
    else
      match s.git.MergeBase(b, newParent)
      case Some(base) => base
      case None => ""
  }

  // ---------- What recomputing stores ----------

  /** b leaves a parent other than p, descends from its stored revision still, and what it was built on is in p: the old
      parent's PR is merged, or the old parent is merged into p,
        or p is trunk and holds the old parent or that revision,
      squashed or not. */
  ghost predicate LeavesLanded(trunk: string, s: Snapshot, b: string, p: string) {
    b in s.parents && s.parents[b] !in {"", p} && b in s.revs && s.revs[b] != "" &&
    b in s.git.tips && s.git.reaches(s.revs[b], s.git.tips[b]) &&
    var parent, rev := s.parents[b], s.revs[b];
    (parent != trunk && s.git.prMerged(parent)) || (rev != trunk && s.git.prMerged(rev)) || s.git.merged(parent, p) ||
    (p == trunk != "" && parent != trunk && s.git.squashMerged(parent, p)) ||
    (p == trunk != "" && rev != trunk && (s.git.merged(rev, p) || s.git.squashMerged(rev, p)))
  }

  /** A branch that leaves a landed parent keeps its revision, so the parent's commits do not become its own; any other
      gets the merge base with its new parent. */
  lemma FreshRevisionIs(trunk: string, s: Snapshot, b: string, p: string)
    requires s.git.MergeBase(b, p).Some?
    ensures b in s.git.tips && p in s.git.tips && s.git.mergeBase(s.git.tips[b], s.git.tips[p]).Some?
    ensures FreshRevision(trunk, s, b, p) ==
      if LeavesLanded(trunk, s, b, p) then s.revs[b] else s.git.mergeBase(s.git.tips[b], s.git.tips[p]).value
  {
  }

  /** Commits c0, c1 and c2 in a row: trunk stands at c0, p at c1 and b, which hangs from p and stores c1, at c2. */
  function StackOfTwo(prMerged: string -> bool): Snapshot {
    Snapshot(
      Git(map["t" := "c0", "p" := "c1", "b" := "c2"], (x, y) => x == "c0" || x == y || (x == "c1" && y == "c2"),
          (x, y) => Some("c0"), (x, y) => false, (x, y) => false, prMerged),
      map["p" := "t", "b" := "p"], map["p" := "c0", "b" := "c1"])
  }

  /** Moving b from p to trunk keeps its revision c1 when p's PR is merged. */
  lemma MergedParentKeeps()
    ensures StackOfTwo(x => x == "p").git.Sound() && FreshRevision("t", StackOfTwo(x => x == "p"), "b", "t") == "c1"
  {
    assert "p"[0] != "t"[0] && "b"[0] != "p"[0] && "b"[0] != "t"[0] && "c0"[1] != "c1"[1];
  }

  /** With p's PR open b gets the merge base c0, and comes to own p's commits. */
  lemma OpenParentDoesNot()
    ensures StackOfTwo(x => false).git.Sound() && FreshRevision("t", StackOfTwo(x => false), "b", "t") == "c0"
  {
    assert "p"[0] != "t"[0] && "b"[0] != "p"[0] && "b"[0] != "t"[0] && "c0"[1] != "c1"[1];
  }
}
