/** Worked examples: small inputs and what the operations make of them. */
module Examples {
  import opened Wrappers
  import opened Names
  import opened Forest
  import opened LinearShape
  import opened StackGraph
  import opened Divergence
  import opened Engine
  import opened DeletionPlan
  import opened DeletionSelect
  import opened Metadata
  import opened Locking

  // ---------- Moving a branch ----------

  /** The branch names of the examples differ. */
  lemma DifferentNames()
    ensures "t" != "p" && "t" != "b" && "p" != "b" && "c0" != "c1" && "c1" != "c2" && "c0" != "c2"
  {
    assert "t"[0] != "p"[0] && "t"[0] != "b"[0] && "p"[0] != "b"[0];
    assert "c0"[1] != "c1"[1] && "c1"[1] != "c2"[1] && "c0"[1] != "c2"[1];
  }

  /** In a stack of two each branch owns its one commit, by its stored revision or, without one, by its parent's tip. */
  lemma OwnRangesInStack()
    ensures var s := StackOfTwo(x => false);
      OwnRange("t", s, "b") == Some(RevRange("c1", "c2")) && OwnRange("t", s, "p") == Some(RevRange("c0", "c1")) &&
      OwnRange("t", s, "t") == Some(RevRange("c0", "c0")) && OwnRange("t", s, "x") == None
    ensures var bare := StackOfTwo(x => false).(revs := map[]);
      OwnRange("t", bare, "b") == Some(RevRange("c1", "c2")) && DivergencePoint("t", bare, "b") == Some("c1")
    ensures var untracked := StackOfTwo(x => false).(revs := map[], parents := map[]);
      OwnRange("t", untracked, "b") == Some(RevRange("c0", "c2")) && DivergencePoint("t", untracked, "b") == None
  {
    DifferentNames();
  }

  /** Moving b from p to trunk: with p's PR merged it goes on owning c2 alone; with p open it comes to own c1 too; and
      preserving its divergence point it owns c2 alone either way. */
  method MoveToTrunk(merged: bool, mode: DivergenceMode)
  {
    var s := StackOfTwo(x => x == "p" && merged);
    var eng := new Engine("t", true, true, ["t", "p", "b"], s.parents, s.revs, s.git, "b");
    DifferentNames();
    OneStack();
    var r := eng.SetParent("b", "t", mode);
    assert r.Done? && eng.parents == map["p" := "t", "b" := "t"];
    assert eng.revs["b"] == if merged || mode == Preserve then "c1" else "c0";
  }

  lemma OneStack()
    ensures LinearAfter("t", ["t", "p", "b"], map["p" := "t", "b" := "p"], [Move("b", "t")], [])
  {
    assert [Move("b", "t")][0] == Move("b", "t") && "t"[0] != "p"[0] && "t"[0] != "b"[0] && "p"[0] != "b"[0];
  }

  // ---------- Deleting ----------

  /** Deleting p from a stack of two succeeds, with b to restack. */
  method DeleteMiddle()
  {
    var s := StackOfTwo(x => false);
    var eng := new Engine("t", true, true, ["t", "p", "b"], s.parents, s.revs, s.git, "p");
    MiddleIsReady();
    var r, restack := eng.DeleteBranches(["p"]);
    assert r.Done? && restack == {"b"};
  }

  lemma MiddleIsReady()
    ensures var s := StackOfTwo(x => false);
      WellFormed(s.parents, "t") && Closed(["t", "p", "b"], s.parents, "t") &&
        Linear(["t", "p", "b"], s.parents, "t") &&
      Stranded(s.parents, ["p"]) == {"b"} && AllRooted(s, {"b"}) && "t" !in ["p"] && "b" !in ["p"]
  {
    DifferentNames();
    StackIsForest();
    StackIsLinear();
  }

  /** It leaves b on trunk. */
  lemma OnlyTopIsLeft(pm: ParentMap)
    requires DeletionResult(map["p" := "t", "b" := "p"], {"p"}, pm)
    ensures pm == map["b" := "t"]
  {
    var before: ParentMap := map["p" := "t", "b" := "p"];
    DifferentNames();
    NearestStep(before, {"p"}, "p", "t");
    NearestStep(before, {"p"}, "t", "t");
    NearestUnique(before, {"p"}, "p", "t", pm["b"]);
  }

  lemma StackIsForest()
    ensures WellFormed(map["p" := "t", "b" := "p"], "t") && Closed(["t", "p", "b"], map["p" := "t", "b" := "p"], "t")
  {
    DifferentNames();
    RankedWellFormed(map["p" := "t", "b" := "p"], "t", map["p" := 1, "b" := 2]);
    assert ["t", "p", "b"][0] == "t" && ["t", "p", "b"][1] == "p" && ["t", "p", "b"][2] == "b";
  }

  lemma StackIsLinear()
    ensures Linear(["t", "p", "b"], map["p" := "t", "b" := "p"], "t")
  {
    DifferentNames();
    forall c | GraphParent(["t", "p", "b"], map["p" := "t", "b" := "p"], c) !in {"", "t"} ensures c == "b" {}
  }

  // ---------- Planning and selecting ----------

  /** Below trunk a, below a b, and beside them d: with all planned a is blocked by b alone. */
  lemma BlockersOfThree(status: DeletionStatus)
    ensures var pm: ParentMap := map["a" := "t", "b" := "a", "d" := "t"];
      var entries := PlanFor(pm, map["a" := status, "b" := status, "d" := status]);
      entries.Keys == {"a", "b", "d"} && entries["a"].blockers == {"b"} && entries["b"].blockers == {} &&
      entries["d"].blockers == {}
  {
    assert "a"[0] != "b"[0] && "a"[0] != "d"[0] && "a"[0] != "t"[0] && "b"[0] != "d"[0] && "b"[0] != "t"[0] &&
      "d"[0] != "t"[0];
  }

  /** Selecting from that plan: all go, b and d before a; with b vetoed only d does. */
  method SelectThree(status: DeletionStatus, veto: bool)
  {
    var plan := new DeletionPlan();
    plan.Add("a", status, {"b"});
    plan.Add("b", status, {});
    plan.Add("d", status, {});
    var canDelete := (x: string) => !(veto && x == "b");
    var parentName := (x: string) => if x == "b" then "a" else "t";
    ThreeAreSelectable(plan.branches, status, parentName);
    var parents: ParentMap := map["a" := "t", "b" := "a", "d" := "t"];
    var selected, asked, layers :=
      SelectBranchesForDeletion(plan, canDelete, parentName, parents, map["a" := 1, "b" := 2, "d" := 1]);
    ThreeSelected(canDelete, veto, selected);
    assert Elems(selected) == if veto then {"d"} else {"a", "b", "d"};
  }

  lemma ThreeAreSelectable(entries: Entries, status: DeletionStatus, parentName: string -> string)
    requires entries == map["a" := BranchDeletionInfo(status.reason, status.kind, {"b"}),
      "b" := BranchDeletionInfo(status.reason, status.kind, {}),
        "d" := BranchDeletionInfo(status.reason, status.kind, {})]
    requires forall x :: parentName(x) == if x == "b" then "a" else "t"
    ensures Selectable(entries, map["a" := "t", "b" := "a", "d" := "t"], parentName, map["a" := 1, "b" := 2, "d" := 1])
  {
    ThreeChildren();
  }

  lemma ThreeSelected(canDelete: string -> bool, veto: bool, selected: seq<string>)
    requires forall x :: canDelete(x) <==> !(veto && x == "b")
    requires IsSelection(map["a" := "t", "b" := "a", "d" := "t"], canDelete, selected)
    ensures Elems(selected) == if veto then {"d"} else {"a", "b", "d"}
  {
    var pp: ParentMap := map["a" := "t", "b" := "a", "d" := "t"];
    ThreeChildren();
    PassesLocally(pp, canDelete, "b");
    PassesLocally(pp, canDelete, "d");
    PassesLocally(pp, canDelete, "a");
    assert "b" in ChildrenIn(pp, "a");
  }

  lemma ThreeChildren()
    ensures var pp: ParentMap := map["a" := "t", "b" := "a", "d" := "t"];
      ChildrenIn(pp, "a") == {"b"} && ChildrenIn(pp, "b") == {} && ChildrenIn(pp, "d") == {}
  {
    assert "a"[0] != "b"[0] && "a"[0] != "d"[0] && "a"[0] != "t"[0] && "b"[0] != "d"[0] && "b"[0] != "t"[0] &&
      "d"[0] != "t"[0];
  }

  // ---------- Locking ----------

  /** Locking one branch of two whose record carries a scope. */
  method LockOne()
  {
    var m := Meta(Some("t"), None, Some("S"), "", "");
    var store := new SharedStore(map["b" := m, "c" := m], true);
    var ok, affected, errors;
    ghost var done, results;
    ok, affected, errors, done, results := Locking.SetLocked(store, ["b"], "wip");
    assert "b"[0] != "c"[0];
    assert ok && (forall x :: x in affected <==> x == "b") && errors == {};
  }
}
