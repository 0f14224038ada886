/** The two walks that look for a parent outliving a set of branches. */
module Ancestors {
  import opened Forest

  /** Walks up from start through branches being deleted, at most |toDelete| + 1 names. The cap cuts off no survivor:
      trunk is the answer only if the whole walk, however long, stays in toDelete. */
  method NearestSurvivingParent(start: string, parentOf: ParentMap, toDelete: set<string>, trunk: string)
    returns (r: string)
    ensures trunk !in toDelete ==> r !in toDelete
    ensures Escapes(parentOf, toDelete, start) ==> IsNearest(parentOf, toDelete, start, r)
    ensures !Escapes(parentOf, toDelete, start) ==> r == trunk
  {
    var parent := start;
    for i := 0 to |toDelete| + 1
      invariant parent == Climb(parentOf, start, i)
      invariant forall j: nat :: j < i ==> Climb(parentOf, start, j) in toDelete
    {
      if parent !in toDelete {
        assert FirstOutside(parentOf, toDelete, start, i);
        return parent;
      }
      ClimbStep(parentOf, start, i);
      parent := Parent(parentOf, parent);
    }
    LongWalkNeverEscapes(parentOf, toDelete, start);
    return trunk;
  }

  /** The result of the uncapped walk: the first name that is not excluded, or trunk if an untracked excluded name comes
      first. */
  ghost predicate IsNonExcluded(pm: ParentMap, trunk: string, excluded: set<string>, start: string, r: string) {
    exists n: nat :: FirstOutside(pm, excluded * pm.Keys, start, n) &&
      r == if Climb(pm, start, n) in excluded then trunk else Climb(pm, start, n)
  }

  /** The uncapped walk. It ends exactly when it meets a name that is not both excluded and tracked. */
  method FindNearestNonExcludedAncestor(pm: ParentMap, trunk: string, startParent: string, excluded: set<string>)
    returns (r: string)
    requires Escapes(pm, excluded * pm.Keys, startParent)
    ensures IsNonExcluded(pm, trunk, excluded, startParent, r)
  {
    ghost var stop: nat :| Climb(pm, startParent, stop) !in excluded * pm.Keys;
    var current := startParent;
    ghost var n: nat := 0;
    while current in excluded
      invariant current == Climb(pm, startParent, n) && n <= stop
      invariant forall j: nat :: j < n ==> Climb(pm, startParent, j) in excluded * pm.Keys
      decreases stop - n
    {
      if current !in pm {
        assert FirstOutside(pm, excluded * pm.Keys, startParent, n);
        return trunk;
      }
      ClimbStep(pm, startParent, n);
      current, n := pm[current], n + 1;
    }
    assert FirstOutside(pm, excluded * pm.Keys, startParent, n);
    return current;
  }

  /** Where every excluded branch is tracked, the uncapped walk looks for what the capped one looks for. */
  lemma WalksAgree(pm: ParentMap, trunk: string, excluded: set<string>, start: string, r: string)
    requires excluded <= pm.Keys
    ensures IsNonExcluded(pm, trunk, excluded, start, r) <==> IsNearest(pm, excluded, start, r)
  {
    assert excluded * pm.Keys == excluded;
    if IsNonExcluded(pm, trunk, excluded, start, r) {
      var n: nat :| FirstOutside(pm, excluded, start, n) && r ==
        if Climb(pm, start, n) in excluded then trunk else Climb(pm, start, n);
    }
    if IsNearest(pm, excluded, start, r) {
      var n: nat :| FirstOutside(pm, excluded, start, n) && r == Climb(pm, start, n);
      assert FirstOutside(pm, excluded * pm.Keys, start, n);
    }
  }
}
