/** Worked examples of what is read: scopes, locks, landed parents, the tree, splits and the limiter. */
module ReadingExamples {
  import opened Wrappers
  import opened Forest
  import opened LinearShape
  import opened Divergence
  import opened Metadata
  import opened StateCore
  import Landed
  import opened TreeView
  import opened Split
  import RateLimit

  // ---------- The cache ----------

  /** The record of a branch b on p, locked, and that of p on trunk, with a scope. */
  function TwoRecords(): Store {
    map["b" := Meta(Some("p"), Some("c1"), None, "wip", "user"), "p" := Meta(Some("t"), Some("c0"), Some("S"), "", "")]
  }

  /** Whether loaded at once or branch by branch, b reads as locked, of its type, below p, and with p's scope. */
  method ReadTwo(atOnce: bool)
  {
    var cache := new Cache("t", ["t", "p", "b"], Disk(TwoRecords(), {}));
    assert ["t", "p", "b"][1] == "p" && ["t", "p", "b"][2] == "b";
    assert "b"[0] != "p"[0] && "b"[0] != "t"[0] && "p"[0] != "t"[0];
    if atOnce { cache.EnsureSharedLoaded(); }
    assert cache.HasState("b") && cache.RecordOf("b") == Some(TwoRecords()["b"]);
    var lock := cache.GetLockReason("b");
    var kind := cache.GetBranchType("b");
    var parent := cache.GetParent("b");
    var tracked := cache.IsTracked("t");
    assert lock == "wip" && kind == "user" && parent == Some("p") && !tracked;
  }

  /** b has no scope and inherits p's; below trunk nothing is inherited. */
  lemma InheritedScope(r: string)
    ensures var b, p := BranchState("p", "", "", "", ""), BranchState("t", "", "S", "", "");
      IsScope(map["b" := b, "p" := p], "t", "b", r) <==> r == "S"
    ensures var b, t := BranchState("t", "", "", "", ""), BranchState("x", "", "S", "", "");
      IsScope(map["b" := b, "t" := t], "t", "b", r) <==> r == ""
  {
    assert "b"[0] != "p"[0] && "b"[0] != "t"[0] && "p"[0] != "t"[0] && "b"[0] != "x"[0];
    var states := map["b" := BranchState("p", "", "", "", ""), "p" := BranchState("t", "", "S", "", "")];
    var pm := ParentsOf(states);
    assert Climb(pm, "b", 0) == "b" && Climb(pm, "b", 1) == Climb(pm, "p", 0) == "p";
    assert "S" != "none" && "S" != "clear" by { assert |"S"| == 1 && |"none"| == 4 && |"clear"| == 5; }
    ScopeEnds(states, "t", "b", 1);
    ScopeUnique(states, "t", "b", "S", r);
    var below := map["b" := BranchState("t", "", "", "", ""), "t" := BranchState("x", "", "S", "", "")];
    assert Climb(ParentsOf(below), "b", 0) == "b";
    ScopeEnds(below, "t", "b", 0);
    ScopeUnique(below, "t", "b", "", r);
  }

  lemma ScopeUnique(states: States, trunk: string, b: string, r: string, r': string)
    requires IsScope(states, trunk, b, r)
    ensures IsScope(states, trunk, b, r') <==> r == r'
  {
    forall m: nat, n: nat | ScopeAt(states, trunk, b, m) && ScopeAt(states, trunk, b, n) ensures m == n {
      assert m < n ==> PassesOn(states, trunk, Climb(ParentsOf(states), b, m));
      assert n < m ==> PassesOn(states, trunk, Climb(ParentsOf(states), b, n));
    }
  }

  // ---------- Landed parents ----------

  /** b on p on q on trunk, with p's changes in q. */
  function LandedStack(): Landed.View {
    Landed.View("t", ["t", "q", "p", "b"], map["b" := "p", "p" := "q", "q" := "t"], {}, None,
      (x, y) => x == "p" && y == "q", x => false)
  }

  /** The walk from b passes p and answers q; b's parent having landed in trunk alone would not have been passed. */
  method PassLanded()
  {
    var v := LandedStack();
    assert "b"[0] != "p"[0] && "p"[0] != "q"[0] && "q"[0] != "t"[0] && "b"[0] != "q"[0] && "p"[0] != "t"[0] &&
      "b"[0] != "t"[0];
    assert v.branches[1] == "q" && v.branches[2] == "p";
    assert Landed.ShouldReparent(v, "p") && !Landed.ShouldReparent(v, "q");
    assert Climb(v.parents, "p", 0) == "p" && Climb(v.parents, "p", 1) == Climb(v.parents, "q", 0) == "q";
    assert FirstOutside(v.parents, Landed.Skipped(v), "p", 1);
    var r := Landed.FindNearestValidAncestor(v, "b");
    assert r == "q";
  }

  // ---------- The tree ----------

  /** Below trunk stand an anchor k with a child x, and a: the tree shows a and x under trunk, a first. */
  lemma AnchorIsWalkedPast()
    ensures var pm: ParentMap := map["k" := "t", "x" := "k", "a" := "t"];
      ShownUnder(pm, {"k"}, "x", "t") && ShownUnder(pm, {"k"}, "a", "t") && !ShownUnder(pm, {"k"}, "k", "t") &&
      InTreeOrder(pm, ["a", "x"]) && !InTreeOrder(pm, ["x", "a"])
  {
    var pm: ParentMap := map["k" := "t", "x" := "k", "a" := "t"];
    assert "k"[0] != "t"[0] && "x"[0] != "k"[0] && "a"[0] != "t"[0] && "x"[0] != "t"[0] && "a"[0] != "k"[0] &&
      "a"[0] != "x"[0];
    assert Climb(pm, "x", 2) == Climb(pm, "k", 1) == Climb(pm, "t", 0) && Climb(pm, "x", 1) == Climb(pm, "k", 0);
    assert Climb(pm, "a", 1) == Climb(pm, "t", 0) && Climb(pm, "a", 0) == "a";
    assert Hangs(pm, {"k"}, "x", 2, "t") && Hangs(pm, {"k"}, "a", 1, "t");
    assert InOrder(pm, Climb(pm, "a", 0), Climb(pm, "x", 1));
    RankedWellFormed(pm, "t", map["k" := 1, "x" := 2, "a" := 1]);
    BeforeAsymmetric(pm, "t", "a", "x");
    assert ["x", "a"][0] == "x" && ["x", "a"][1] == "a";
  }

  // ---------- Splitting ----------

  /** A branch b of two commits on trunk. */
  function TwoCommits(): Snapshot {
    Snapshot(StackOfTwo(x => false).git, map["b" := "t"], map["b" := "c0"])
  }

  function TwoHistory(): History {
    map["c2" := "c1", "c1" := "c0"]
  }

  lemma TwoDiffer()
    ensures "b" != "t" && "b" != "p" && "low" != "b" && "low" != "t" && "low" != "p" && "c1" != "c2" && "c0" != "c1"
  {
    assert "b"[0] != "t"[0] && "b"[0] != "p"[0] && |"low"| == 3 && |"b"| == 1 && |"t"| == 1 && |"p"| == 1;
    assert "c1"[1] != "c2"[1] && "c0"[1] != "c1"[1];
  }

  /** Split at the older commit, low takes c1 on trunk. */
  lemma OlderPart()
    ensures Parts(TwoHistory(), TwoCommits(), "b", ["low", "b"], [0, 1], false, 1) ==
      Some(Progress(MakePart(TwoCommits(), "low", "t", "c0", "c1"), "low", "c1"))
  {
    TwoDiffer();
    assert Back(TwoHistory(), "c2", 1) == Back(TwoHistory(), "c1", 0) == Some("c1");
    assert Parts(TwoHistory(), TwoCommits(), "b", ["low", "b"], [0, 1], false, 0) ==
      Some(Progress(TwoCommits(), "t", "c0"));
    PartsNext(TwoHistory(), TwoCommits(), "b", ["low", "b"], [0, 1], false, 0, Progress(TwoCommits(), "t", "c0"));
  }

  /** And b keeps c2, on low. */
  lemma SplitOfTwo()
    ensures var p := Parts(TwoHistory(), TwoCommits(), "b", ["low", "b"], [0, 1], false, 2);
      p.Some? && p.value.now.parents == map["b" := "low", "low" := "t"] &&
      p.value.now.revs == map["b" := "c1", "low" := "c0"] && p.value.now.git.tips["low"] == "c1" &&
      p.value.now.git.tips["b"] == "c2"
  {
    TwoDiffer();
    OlderPart();
    PartsNext(TwoHistory(), TwoCommits(), "b", ["low", "b"], [0, 1], false, 1,
      Progress(MakePart(TwoCommits(), "low", "t", "c0", "c1"), "low", "c1"));
  }

  // ---------- The limiter ----------

  /** At one request a second and a burst of one, a request half a second after another is denied, and one a second
      after that is admitted. */
  method OneASecond()
  {
    var limiter := new RateLimit.RateLimiter(1.0, 1);
    var first := limiter.Allow("a", 100.0);
    var second := limiter.Allow("a", 100.5);
    var third := limiter.Allow("a", 101.5);
    assert first && !second && third;
  }
}
