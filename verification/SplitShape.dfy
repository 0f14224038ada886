/** What a split does to the shape of the forest. */
module SplitShape {
  import opened Names
  import opened Forest
  import opened LinearShape
  import opened StackGraph
  import opened Divergence
  import opened Split

  /** The parents once the first n parts hang in a chain below parent, or side by side under it. */
  function Hung(pm: ParentMap, parent: string, names: seq<string>, asSibling: bool, n: nat): ParentMap
    requires n <= |names|
    decreases n
  {
    if n == 0 then pm
    else Hung(pm, parent, names, asSibling, n - 1)[names[n - 1] :=
      if asSibling then parent else PartParent(parent, names, n - 1)]
  }

  lemma {:induction false} PartsHang(history: History, s: Snapshot, b: string, names: seq<string>, points: seq<nat>,
      asSibling: bool, n: nat)
    requires |names| == |points| && n <= |names| && Parts(history, s, b, names, points, asSibling, n).Some?
    ensures var p := Parts(history, s, b, names, points, asSibling, n).value;
      p.now.parents == Hung(s.parents, Parent(s.parents, b), names, asSibling, n) &&
        p.lastName == PartParent(Parent(s.parents, b), names, n)
  {
    if n > 0 { PartsHang(history, s, b, names, points, asSibling, n - 1); }
  }

  /** Part i hangs from its predecessor, or beside the others. */
  ghost predicate IsHung(pm: ParentMap, names: seq<string>, asSibling: bool, parent: string, i: nat)
    requires i < |names|
  {
    names[i] in pm && pm[names[i]] == if asSibling then parent else PartParent(parent, names, i)
  }

  lemma {:induction false} HungOther(pm: ParentMap, parent: string, names: seq<string>, asSibling: bool, n: nat,
      x: string)
    requires n <= |names| && forall i :: 0 <= i < n ==> names[i] != x
    ensures var pm' := Hung(pm, parent, names, asSibling, n); (x in pm' <==> x in pm) && (x in pm ==> pm'[x] == pm[x])
  {
    if n > 0 { HungOther(pm, parent, names, asSibling, n - 1, x); }
  }

  lemma {:induction false} HungPart(pm: ParentMap, parent: string, names: seq<string>, asSibling: bool, n: nat, i: nat)
    requires i < n <= |names| && Distinct(names)
    ensures IsHung(Hung(pm, parent, names, asSibling, n), names, asSibling, parent, i)
  {
    if i < n - 1 { HungPart(pm, parent, names, asSibling, n - 1, i); }
  }

  /** A split of b into itself and branches that do not exist yet, in a closed forest. */
  ghost predicate FreshSplit(branches: seq<string>, pm: ParentMap, trunk: string, b: string, names: seq<string>) {
    WellFormed(pm, trunk) && Closed(branches, pm, trunk) && b in pm && Distinct(names) && "" !in names &&
    names != [] && names[|names| - 1] == b && forall i :: 0 <= i < |names| - 1 ==> names[i] !in branches
  }

  /** The old branches are where they were, the parts are where they were hung. */
  ghost predicate IsSplit(pm: ParentMap, names: seq<string>, asSibling: bool, parent: string, pm': ParentMap) {
    pm'.Keys == pm.Keys + Elems(names) && (forall x :: x in pm && x !in names ==> pm'[x] == pm[x]) &&
    forall i: nat :: i < |names| ==> IsHung(pm', names, asSibling, parent, i)
  }

  lemma SplitIs(history: History, s: Snapshot, b: string, names: seq<string>, points: seq<nat>, asSibling: bool)
    requires |names| == |points| && Distinct(names) && Parts(history, s, b, names, points, asSibling, |names|).Some?
    ensures IsSplit(s.parents, names, asSibling, Parent(s.parents, b),
      Parts(history, s, b, names, points, asSibling, |names|).value.now.parents)
  {
    PartsHang(history, s, b, names, points, asSibling, |names|);
    var parent, pm' := Parent(s.parents, b), Hung(s.parents, Parent(s.parents, b), names, asSibling, |names|);
    forall i: nat | i < |names| ensures IsHung(pm', names, asSibling, parent, i) {
      HungPart(s.parents, parent, names, asSibling, |names|, i);
    }
    forall x | x !in names ensures (x in pm' <==> x in s.parents) && (x in s.parents ==> pm'[x] == s.parents[x]) {
      HungOther(s.parents, parent, names, asSibling, |names|, x);
    }
    forall x ensures x in pm' <==> x in s.parents || x in Elems(names) {
      if x in names {
        var i: nat :| i < |names| && names[i] == x;
        assert IsHung(pm', names, asSibling, parent, i);
      }
    }
  }

  // ---------- Still a forest ----------

  lemma OnePartExists(branches: seq<string>, pm: ParentMap, trunk: string, b: string, names: seq<string>, x: string)
    requires FreshSplit(branches, pm, trunk, b, names) && x in branches && x in names
    ensures x == b
  {
    var i :| 0 <= i < |names| && names[i] == x;
  }

  lemma StepReaches(pm: ParentMap, trunk: string, x: string)
    requires x in pm && (pm[x] == trunk || ReachesTrunk(pm, trunk, pm[x]))
    ensures ReachesTrunk(pm, trunk, x)
  {
    var n: nat :| Climb(pm, pm[x], n) == trunk by { assert pm[x] == trunk ==> Climb(pm, pm[x], 0) == trunk; }
    assert Climb(pm, x, n + 1) == trunk;
  }

  /** A part climbs through the earlier parts to the old parent. */
  lemma {:induction false} PartReaches(pm: ParentMap, trunk: string, names: seq<string>, asSibling: bool,
      parent: string, pm': ParentMap, i: nat)
    requires IsSplit(pm, names, asSibling, parent, pm') && i < |names| &&
      (parent == trunk || ReachesTrunk(pm', trunk, parent))
    ensures ReachesTrunk(pm', trunk, names[i])
  {
    assert IsHung(pm', names, asSibling, parent, i);
    if !asSibling && i > 0 { PartReaches(pm, trunk, names, asSibling, parent, pm', i - 1); }
    StepReaches(pm', trunk, names[i]);
  }

  /** A branch that was there climbs as before, through the parts if it meets b. */
  lemma {:induction false} StillReaches(branches: seq<string>, pm: ParentMap, trunk: string, rank: Rank, b: string,
      names: seq<string>, asSibling: bool,
                                        pm': ParentMap, x: string)
    requires FreshSplit(branches, pm, trunk, b, names) && IsSplit(pm, names, asSibling, pm[b], pm') &&
      Ranked(pm, trunk, rank) && x in pm
    ensures ReachesTrunk(pm', trunk, x)
    decreases rank[x]
  {
    if pm[x] != trunk { StillReaches(branches, pm, trunk, rank, b, names, asSibling, pm', pm[x]); }
    if x in names {
      OnePartExists(branches, pm, trunk, b, names, x);
      PartReaches(pm, trunk, names, asSibling, pm[b], pm', |names| - 1);
    } else {
      StepReaches(pm', trunk, x);
    }
  }

  /** A split of a tracked branch, in a chain or side by side, leaves a forest. */
  lemma SplitKeepsForest(branches: seq<string>, pm: ParentMap, trunk: string, b: string, names: seq<string>,
      asSibling: bool, pm': ParentMap)
    requires FreshSplit(branches, pm, trunk, b, names) && IsSplit(pm, names, asSibling, pm[b], pm')
    ensures WellFormed(pm', trunk) && Closed(branches + names, pm', trunk)
  {
    DepthsRank(pm, trunk);
    forall x | x in pm ensures ReachesTrunk(pm', trunk, x) {
      StillReaches(branches, pm, trunk, Depths(pm, trunk), b, names, asSibling, pm', x);
    }
    forall i | 0 <= i < |names| ensures ReachesTrunk(pm', trunk, names[i]) && pm'[names[i]] in branches + names {
      PartReaches(pm, trunk, names, asSibling, pm[b], pm', i);
      assert IsHung(pm', names, asSibling, pm[b], i);
    }
    if trunk in names { OnePartExists(branches, pm, trunk, b, names, trunk); }
  }

  // ---------- Still linear ----------

  /** A chain split of a branch in a linear forest leaves a linear forest. */
  lemma ChainKeepsLinear(branches: seq<string>, pm: ParentMap, trunk: string, b: string, names: seq<string>,
      pm': ParentMap)
    requires FreshSplit(branches, pm, trunk, b, names) && IsSplit(pm, names, false, pm[b], pm') &&
      Linear(branches, pm, trunk)
    ensures Linear(branches + names, pm', trunk)
  {
    var bs := branches + names;
    forall x, y | GraphParent(bs, pm', x) == GraphParent(bs, pm', y) && GraphParent(bs, pm', x) !in {"", trunk}
      ensures x == y
    {
      ChainChild(branches, pm, trunk, b, names, pm', x);
      ChainChild(branches, pm, trunk, b, names, pm', y);
    }
  }

  /** Where a branch hangs after a chain split: a part under its predecessor, the oldest in the place of b, any other as
      before. */
  lemma ChainChild(branches: seq<string>, pm: ParentMap, trunk: string, b: string, names: seq<string>, pm': ParentMap,
      x: string)
    requires FreshSplit(branches, pm, trunk, b, names) && IsSplit(pm, names, false, pm[b], pm') &&
      GraphParent(branches + names, pm', x) != ""
    ensures var p := GraphParent(branches + names, pm', x);
      if p in branches then GraphParent(branches, pm, if x in names then b else x) == p &&
        (x in names ==> x == names[0])
      else exists i :: 0 < i < |names| && names[i] == x && names[i - 1] == p
  {
    if x in names {
      var i :| 0 <= i < |names| && names[i] == x;
      assert IsHung(pm', names, false, pm[b], i);
    }
  }

  /** Where a branch hangs after a sibling split: a part beside b, any other as before. */
  lemma SiblingChild(branches: seq<string>, pm: ParentMap, trunk: string, b: string, names: seq<string>, pm': ParentMap,
      x: string)
    requires FreshSplit(branches, pm, trunk, b, names) && IsSplit(pm, names, true, pm[b], pm')
    ensures GraphParent(branches + names, pm', x) == if x in names then pm[b] else GraphParent(branches, pm, x)
  {
    if x in names {
      var i :| 0 <= i < |names| && names[i] == x;
      assert IsHung(pm', names, true, pm[b], i);
    }
  }

  /** The guard of a sibling split accepts exactly the splits that leave a linear forest. */
  lemma SiblingGuardIsExact(branches: seq<string>, pm: ParentMap, trunk: string, b: string, names: seq<string>,
      pm': ParentMap)
    requires FreshSplit(branches, pm, trunk, b, names) && IsSplit(pm, names, true, pm[b], pm') &&
      Linear(branches, pm, trunk)
    ensures SiblingsFit(branches, pm, trunk, pm[b], names) <==> Linear(branches + names, pm', trunk)
  {
    var under := (set c | c in branches && GraphParent(branches, pm, c) == pm[b]) + Elems(names);
    forall x ensures x in under <==> GraphParent(branches + names, pm', x) == pm[b]
      ensures GraphParent(branches + names, pm', x) != pm[b] ==>
        GraphParent(branches + names, pm', x) == GraphParent(branches, pm, x)
    {
      SiblingChild(branches, pm, trunk, b, names, pm', x);
    }
    if pm[b] != trunk {
      if |under| > 1 { TwoMembers(under); } else { FewMembers(under); }
    }
  }
}
