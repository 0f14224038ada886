/** The graph of existing branches: who is whose parent, and the sorted children of a branch. */
module StackGraph {
  import opened Names
  import opened Forest

  /** The parent a branch has in the stack graph: "" unless both ends exist. */
  function GraphParent(branches: seq<string>, pm: ParentMap, b: string): string {
    if b in branches && b in pm && pm[b] in branches then pm[b] else ""
  }

  /** Every tracked branch and every recorded parent exists. */
  ghost predicate Closed(branches: seq<string>, pm: ParentMap, trunk: string) {
    trunk in branches && "" !in branches && forall b :: b in pm ==> b in branches && pm[b] in branches
  }

  /** The recorded parents that do not exist: branches deleted behind the program's back. */
  function Ghosts(branches: seq<string>, pm: ParentMap): (r: set<string>)
    ensures forall b :: b in pm ==> (pm[b] in r <==> pm[b] !in branches)
    ensures forall g :: g in r ==> g !in branches
  {
    set b | b in pm && pm[b] !in branches :: pm[b]
  }

  lemma GhostHasChild(branches: seq<string>, pm: ParentMap, g: string) returns (b: string)
    requires g in Ghosts(branches, pm)
    ensures b in pm && pm[b] == g
  {
    b :| b in pm && pm[b] == g;
  }

  /** The parents once ghosts are hung from trunk. */
  function Adopted(pm: ParentMap, ghosts: set<string>, trunk: string): ParentMap {
    pm + map g | g in ghosts :: trunk
  }

  /** Every tracked branch exists, and every parent chain ends at trunk or at a ghost. */
  ghost predicate Grounded(branches: seq<string>, pm: ParentMap, trunk: string) {
    trunk in branches && "" !in branches && (forall b :: b in pm ==> b in branches) &&
    WellFormed(Adopted(pm, Ghosts(branches, pm), trunk), trunk)
  }

  /** Trunk and all tracked branches exist, and every tracked branch records a parent, be it a ghost. */
  ghost predicate Tracked(branches: seq<string>, pm: ParentMap, trunk: string) {
    trunk in branches && "" !in branches && trunk !in pm && forall b :: b in pm ==> b in branches && pm[b] != ""
  }

  /** The parent chain of b comes to trunk or to a ghost. */
  ghost predicate ReachesRoot(pm: ParentMap, ghosts: set<string>, trunk: string, b: string) {
    exists n: nat :: Climb(pm, b, n) in ghosts + {trunk}
  }

  /** The part of the parents that a traversal down from trunk and from ghosts gets to see. */
  ghost function Seen(pm: ParentMap, ghosts: set<string>, trunk: string): ParentMap {
    map b | b in pm && ReachesRoot(pm, ghosts, trunk, b) :: pm[b]
  }

  /** Whatever the parents, what is seen of them is a forest once the ghosts are adopted. */
  lemma SeenIsForest(branches: seq<string>, pm: ParentMap, trunk: string)
    requires Tracked(branches, pm, trunk)
    ensures var ghosts := Ghosts(branches, pm);
      var seen := Seen(pm, ghosts, trunk);
      WellFormed(Adopted(seen, ghosts, trunk), trunk) &&
      forall b :: b in pm && pm[b] in seen.Keys + ghosts + {trunk} ==> b in seen
  {
    var ghosts := Ghosts(branches, pm);
    var up := Adopted(Seen(pm, ghosts, trunk), ghosts, trunk);
    forall b | b in up ensures ReachesTrunk(up, trunk, b) {
      if b in ghosts {
        assert Climb(up, b, 1) == Climb(up, trunk, 0);
      } else {
        var n: nat :| Climb(pm, b, n) in ghosts + {trunk};
        SeenReaches(pm, ghosts, trunk, b, n);
      }
    }
    forall b | b in pm && pm[b] in Seen(pm, ghosts, trunk).Keys + ghosts + {trunk}
      ensures b in Seen(pm, ghosts, trunk)
    {
      var n: nat :| Climb(pm, pm[b], n) in ghosts + {trunk} by {
        if pm[b] !in Seen(pm, ghosts, trunk) { assert Climb(pm, pm[b], 0) in ghosts + {trunk}; }
      }
      assert Climb(pm, b, n + 1) in ghosts + {trunk};
    }
    assert "" !in ghosts by {
      if "" in ghosts { var b := GhostHasChild(branches, pm, ""); }
    }
  }

  lemma {:induction false} SeenReaches(pm: ParentMap, ghosts: set<string>, trunk: string, b: string, n: nat)
    requires "" !in pm && "" !in ghosts && trunk != "" && Climb(pm, b, n) in ghosts + {trunk} && ghosts !! pm.Keys
    ensures ReachesTrunk(Adopted(Seen(pm, ghosts, trunk), ghosts, trunk), trunk, b)
    decreases n
  {
    var up := Adopted(Seen(pm, ghosts, trunk), ghosts, trunk);
    if b == trunk {
      assert Climb(up, b, 0) == trunk;
    } else if b in ghosts {
      assert Climb(up, b, 1) == Climb(up, trunk, 0);
    } else {
      if b !in pm { ClimbNowhere(pm, n - 1); }
      SeenReaches(pm, ghosts, trunk, pm[b], n - 1);
      var k: nat :| Climb(up, pm[b], k) == trunk;
      assert up[b] == pm[b] && Climb(up, b, k + 1) == trunk;
    }
  }

  /** On a grounded forest all is seen. */
  lemma GroundedIsSeen(branches: seq<string>, pm: ParentMap, trunk: string)
    requires Grounded(branches, pm, trunk)
    ensures Tracked(branches, pm, trunk) && Seen(pm, Ghosts(branches, pm), trunk) == pm
  {
    var ghosts := Ghosts(branches, pm);
    var up := Adopted(pm, ghosts, trunk);
    forall b | b in pm ensures ReachesRoot(pm, ghosts, trunk, b) && pm[b] != "" {
      assert b in up;
      var n: nat :| Climb(up, b, n) == trunk;
      AdoptedReaches(pm, ghosts, trunk, b, n);
      assert pm[b] in ghosts ==> pm[b] in up;
    }
  }

  lemma {:induction false} AdoptedReaches(pm: ParentMap, ghosts: set<string>, trunk: string, b: string, n: nat)
    requires "" !in pm && "" !in ghosts && trunk != "" && Climb(Adopted(pm, ghosts, trunk), b, n) == trunk
    ensures ReachesRoot(pm, ghosts, trunk, b)
    decreases n
  {
    var up := Adopted(pm, ghosts, trunk);
    if b in ghosts + {trunk} {
      assert Climb(pm, b, 0) in ghosts + {trunk};
    } else {
      if b !in pm { ClimbNowhere(up, n - 1); }
      AdoptedReaches(pm, ghosts, trunk, pm[b], n - 1);
      var k: nat :| Climb(pm, pm[b], k) in ghosts + {trunk};
      assert Climb(pm, b, k + 1) in ghosts + {trunk};
    }
  }

  /** A forest in which every recorded parent exists is grounded, without ghosts. */
  lemma ClosedIsGrounded(branches: seq<string>, pm: ParentMap, trunk: string)
    requires Closed(branches, pm, trunk)
    ensures Ghosts(branches, pm) == {} && Adopted(pm, {}, trunk) == pm
    ensures Grounded(branches, pm, trunk) <==> WellFormed(pm, trunk)
  {
    assert Adopted(pm, {}, trunk) == pm;
  }

  /** The children of a branch in the stack graph, in order. */
  method ChildBranches(branches: seq<string>, pm: ParentMap, b: string) returns (q: seq<string>)
    requires b != ""
    ensures Sorted(q) && forall c :: c in q <==> GraphParent(branches, pm, c) == b
  {
    var any := [];
    for i := 0 to |branches|
      invariant forall c :: c in any <==> c in branches[..i] && GraphParent(branches, pm, c) == b
    {
      assert branches[..i + 1] == branches[..i] + [branches[i]];
      if GraphParent(branches, pm, branches[i]) == b { any := any + [branches[i]]; }
    }
    assert branches[..|branches|] == branches;
    SortSorts(any);
    q := Sort(any);
    assert forall c :: c in q <==> c in Elems(q);
    assert forall c :: c in any <==> c in Elems(any);
  }
}
