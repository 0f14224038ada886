/** Walking up past parents that are gone or have landed. */
module Landed {
  import opened Wrappers
  import opened Forest

  /** What the walk looks at: the existing branches, the tracked parents, the worktree anchors, the PR states in the
      batch of metadata at hand (if there is one), and the landed oracle. */
  datatype View = View(
    trunk: string,
    branches: seq<string>,
    parents: ParentMap,
    anchors: set<string>,
    batchMerged: Option<map<string, bool>>,
    landed: (string, string) -> bool,
    prMerged: string -> bool)

  /** Where a branch would have to land: in its parent, or in trunk when none is recorded. */
  function MergeTarget(v: View, b: string): string {
    if b in v.parents && v.parents[b] != "" then v.parents[b] else v.trunk
  }

  /** Whether children of b should be moved to its parent. */
  predicate ShouldReparent(v: View, b: string) {
    if b == v.trunk then false
    else if b in v.parents && b in v.anchors then false
    else if b !in v.branches then true
    else if v.landed(b, MergeTarget(v, b)) then true
    else if v.batchMerged.Some? && b in v.batchMerged.value then v.batchMerged.value[b]
    else v.prMerged(b)
  }

  /** Whether the branch's PR is recorded as merged; the batch of metadata at hand has the last word. */
  ghost predicate RecordedMerged(v: View, b: string) {
    if v.batchMerged.Some? && b in v.batchMerged.value then v.batchMerged.value[b] else v.prMerged(b)
  }

  ghost predicate IsAnchor(v: View, b: string) {
    b in v.parents && b in v.anchors
  }

  /** The branch no longer exists, or its changes are in its parent, or in trunk if it records none, or its PR is
      recorded
      as merged. */
  ghost predicate GoneOrLanded(v: View, b: string) {
    b !in v.branches || (b in v.parents && v.parents[b] != "" && v.landed(b, v.parents[b])) ||
    ((b !in v.parents || v.parents[b] == "") && v.landed(b, v.trunk)) || RecordedMerged(v, b)
  }

  /** Exactly the branches that are gone or landed are passed over, trunk and worktree anchors apart. */
  lemma PassedOverIsGone(v: View, b: string)
    ensures ShouldReparent(v, b) <==> GoneOrLanded(v, b) && b != v.trunk && !IsAnchor(v, b)
  {
  }

  /** The tracked branches the walk steps over. */
  ghost function Skipped(v: View): set<string> {
    set b | b in v.parents && b != "" && ShouldReparent(v, b)
  }

  /** r is the first name from start on that is not stepped over, or trunk if that name is no branch to keep. */
  ghost predicate IsValidAncestor(v: View, start: string, r: string) {
    exists n: nat :: FirstOutside(v.parents, Skipped(v), start, n) &&
      r == if Climb(v.parents, start, n) == "" || ShouldReparent(v, Climb(v.parents, start, n)) then v.trunk
        else Climb(v.parents, start, n)
  }

  /** The nearest ancestor of b to keep, trunk if there is none. The walk ends exactly when it leaves the branches it
      steps over, as it does on every acyclic parent map (AcyclicWalkEnds). */
  method FindNearestValidAncestor(v: View, b: string) returns (r: string)
    requires b in v.parents ==> Escapes(v.parents, Skipped(v), v.parents[b])
    ensures b !in v.parents ==> r == v.trunk
    ensures b in v.parents ==> IsValidAncestor(v, v.parents[b], r)
  {
    if b !in v.parents { return v.trunk; }
    ghost var end: nat :| Climb(v.parents, v.parents[b], end) !in Skipped(v);
    var current := v.parents[b];
    ghost var n: nat := 0;
    while current != "" && current != v.trunk
      invariant n <= end && current == Climb(v.parents, v.parents[b], n)
      invariant forall i: nat :: i < n ==> Climb(v.parents, v.parents[b], i) in Skipped(v)
      decreases end - n
    {
      if !ShouldReparent(v, current) {
        assert FirstOutside(v.parents, Skipped(v), v.parents[b], n);
        return current;
      }
      if current !in v.parents {
        break;
      }
      ClimbStep(v.parents, v.parents[b], n);
      current, n := v.parents[current], n + 1;
    }
    assert FirstOutside(v.parents, Skipped(v), v.parents[b], n);
    return v.trunk;
  }

  /** The first n names from start on are gone or landed, and none of them is trunk or an anchor. */
  ghost predicate PassesOver(v: View, start: string, n: nat) {
    forall i: nat :: i < n ==>
      var x := Climb(v.parents, start, i); GoneOrLanded(v, x) && x != v.trunk && !IsAnchor(v, x)
  }

  /** Having passed over n names the walk stops: at r, an anchor or a branch that exists and has not landed, or else
      with the answer trunk, because it has reached trunk or the chain has run out. */
  ghost predicate WalkStops(v: View, start: string, n: nat, r: string) {
    var x := Climb(v.parents, start, n);
    PassesOver(v, start, n) &&
    if r == v.trunk then x == v.trunk || x == "" || (x !in v.parents && GoneOrLanded(v, x))
    else r == x && (IsAnchor(v, x) || !GoneOrLanded(v, x))
  }

  /** On every acyclic parent map the walk ends, and everything between the branch and the answer is gone or landed. A
      parent that no longer exists has no recorded parent of its own, so a chain may run out before it reaches trunk. */
  lemma AcyclicWalkEnds(v: View, b: string)
    requires Acyclic(v.parents) && b in v.parents
    ensures Escapes(v.parents, Skipped(v), v.parents[b])
    ensures exists r :: IsValidAncestor(v, v.parents[b], r)
    ensures forall r :: IsValidAncestor(v, v.parents[b], r) ==> exists n: nat :: WalkStops(v, v.parents[b], n, r)
  {
    var pm, start := v.parents, v.parents[b];
    AcyclicEscapes(pm, Skipped(v), start);
    var far: nat :| Climb(pm, start, far) !in Skipped(v);
    var n := FirstExit(pm, Skipped(v), start, far);
    var x := Climb(pm, start, n);
    assert IsValidAncestor(v, start, if x == "" || ShouldReparent(v, x) then v.trunk else x);
    forall r | IsValidAncestor(v, start, r) ensures exists n: nat :: WalkStops(v, start, n, r) {
      var n: nat :| FirstOutside(pm, Skipped(v), start, n) &&
        r == if Climb(pm, start, n) == "" || ShouldReparent(v, Climb(pm, start, n)) then v.trunk
          else Climb(pm, start, n);
      SkippedArePassedOver(v, start, n);
      PassedOverIsGone(v, Climb(pm, start, n));
      assert WalkStops(v, start, n, r);
    }
  }

  lemma SkippedArePassedOver(v: View, start: string, n: nat)
    requires forall i: nat :: i < n ==> Climb(v.parents, start, i) in Skipped(v)
    ensures PassesOver(v, start, n)
  {
    forall i: nat | i < n ensures ShouldReparent(v, Climb(v.parents, start, i)) {
      assert Climb(v.parents, start, i) in Skipped(v);
    }
  }

  /** On a forest the walk always ends, and its answer is trunk or the first ancestor that is to be kept. */
  lemma ForestWalkEnds(v: View, b: string)
    requires WellFormed(v.parents, v.trunk) && b in v.parents
    ensures Escapes(v.parents, Skipped(v), v.parents[b])
    ensures forall r :: IsValidAncestor(v, v.parents[b], r) ==>
      IsNearest(v.parents, Skipped(v), v.parents[b], r) && (r == v.trunk || (r in v.parents && !ShouldReparent(v, r)))
  {
    DepthsRank(v.parents, v.trunk);
    var r := ForestNearest(v.parents, v.trunk, Depths(v.parents, v.trunk), Skipped(v), v.parents[b]);
    forall r' | IsValidAncestor(v, v.parents[b], r') ensures r' == r {
      var n: nat :| FirstOutside(v.parents, Skipped(v), v.parents[b], n) &&
        r' == if Climb(v.parents, v.parents[b], n) == "" ||
          ShouldReparent(v, Climb(v.parents, v.parents[b], n)) then v.trunk else Climb(v.parents, v.parents[b], n);
      NearestUnique(v.parents, Skipped(v), v.parents[b], Climb(v.parents, v.parents[b], n), r);
    }
  }
}
