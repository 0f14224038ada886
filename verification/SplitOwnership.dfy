/** Whose commits are whose after a split, on any commit graph, merges included. */
module SplitOwnership {
  import opened Wrappers
  import opened Forest
  import opened Divergence
  import opened Split

  // ---------- The commit graph ----------

  /** Git's ancestor relation is an order along which first-parent history goes down. */
  ghost predicate Dag(history: History, git: Git) {
    (forall c :: git.reaches(c, c)) &&
    (forall a, c, e :: git.reaches(a, c) && git.reaches(c, e) ==> git.reaches(a, e)) &&
    forall c :: c in history ==> git.reaches(history[c], c) && !git.reaches(c, history[c])
  }

  lemma {:induction false} BackAdd(history: History, c: string, j: nat, k: nat)
    requires Back(history, c, j).Some?
    ensures Back(history, c, j + k) == Back(history, Back(history, c, j).value, k)
    decreases j
  {
    if j > 0 { BackAdd(history, history[c], j - 1, k); }
  }

  /** A commit some first-parent steps back is a proper ancestor. */
  lemma {:induction false} BackReaches(history: History, git: Git, c: string, k: nat)
    requires Dag(history, git) && Back(history, c, k).Some?
    ensures git.reaches(Back(history, c, k).value, c)
    ensures k > 0 ==> !git.reaches(c, Back(history, c, k).value)
    decreases k
  {
    if k > 0 { BackReaches(history, git, history[c], k - 1); }
  }

  /** The tips of the parts rise: each is a proper ancestor of the next. */
  ghost predicate Rising(git: Git, cuts: seq<string>) {
    forall i, j :: 0 < i < j < |cuts| ==> git.reaches(cuts[i], cuts[j]) && !git.reaches(cuts[j], cuts[i])
  }

  lemma CutsRise(trunk: string, history: History, s: Snapshot, b: string, names: seq<string>, points: seq<nat>)
    requires GoodSplit(trunk, history, s, b, names, points) && Dag(history, s.git)
    ensures Rising(s.git, Cuts(history, s, b, points))
  {
    var cuts, head := Cuts(history, s, b, points), s.git.tips[b];
    CutsAre(trunk, history, s, b, names, points);
    forall i, j | 0 < i < j < |cuts|
      ensures s.git.reaches(cuts[i], cuts[j]) && !s.git.reaches(cuts[j], cuts[i])
    {
      var far, near := points[|points| - i], points[|points| - j];
      assert IsCut(history, head, points, cuts, i - 1) && IsCut(history, head, points, cuts, j - 1);
      BackAdd(history, head, near, far - near);
      BackReaches(history, s.git, cuts[j], far - near);
    }
  }

  // ---------- The parts partition the branch's own commits ----------

  /** Commit c is in the range a branch owns: reached from its tip and not from its base. */
  ghost predicate Owns(trunk: string, s: Snapshot, b: string, c: string) {
    var r := OwnRange(trunk, s, b);
    r.Some? && s.git.reaches(c, r.value.head) && !s.git.reaches(c, r.value.base)
  }

  ghost predicate OwnedBySome(trunk: string, s: Snapshot, names: seq<string>, c: string) {
    exists i :: 0 <= i < |names| && Owns(trunk, s, names[i], c)
  }

  /** Every commit the branch owned is owned by a part, and the parts own no other commit. */
  ghost predicate Covers(trunk: string, s: Snapshot, b: string, names: seq<string>, s': Snapshot) {
    forall c :: Owns(trunk, s, b, c) <==> OwnedBySome(trunk, s', names, c)
  }

  /** No commit is owned by two parts. */
  ghost predicate Disjoint(trunk: string, s': Snapshot, names: seq<string>) {
    forall i, j, c :: 0 <= i < j < |names| ==> !(Owns(trunk, s', names[i], c) && Owns(trunk, s', names[j], c))
  }

  ghost predicate OwnsSome(trunk: string, s: Snapshot, b: string) {
    exists c :: Owns(trunk, s, b, c)
  }

  /** What part i of a chain owns lies between two cuts. */
  lemma PartOwns(trunk: string, s: Snapshot, s': Snapshot, parent: string, cuts: seq<string>, names: seq<string>,
      i: nat, c: string)
    requires |cuts| == |names| + 1 && i < |names| && trunk !in names && "" !in cuts
    requires AreParts(s', parent, cuts, names, false, |names|) && s'.git.reaches == s.git.reaches
    ensures Owns(trunk, s', names[i], c) <==> s.git.reaches(c, cuts[i + 1]) && !s.git.reaches(c, cuts[i])
  {
    assert IsPart(s', parent, cuts, names, false, i) && names[i] in names && cuts[i] in cuts;
  }

  /** An ancestor of the n-th cut that is no ancestor of the old base belongs to one of the first n parts. */
  lemma {:induction false} FirstOwner(git: Git, cuts: seq<string>, n: nat, c: string) returns (i: nat)
    requires n < |cuts| && git.reaches(c, cuts[n]) && !git.reaches(c, cuts[0])
    ensures i < n && git.reaches(c, cuts[i + 1]) && !git.reaches(c, cuts[i])
  {
    if git.reaches(c, cuts[n - 1]) { i := FirstOwner(git, cuts, n - 1, c); } else { i := n - 1; }
  }

  /** The branch's divergence point and its tip have no ancestor in common that is not one of the oldest part's tip. */
  ghost predicate MeetsBelow(git: Git, base: string, head: string, oldest: string) {
    forall c :: git.reaches(c, base) && git.reaches(c, head) ==> git.reaches(c, oldest)
  }

  /** A chain split on any commit graph. No two parts own a commit in common, every part but perhaps the oldest owns
      one, and no branch that is not a part changes, the old children included. The parts own exactly the commits the
      branch owned iff what its divergence point and its tip have in common is below the oldest part's tip; for a branch
      that descends from its divergence point, iff that point is an ancestor of the oldest part's tip. */
  lemma SplitPartitions(trunk: string, history: History, s: Snapshot, b: string, names: seq<string>, points: seq<nat>)
    requires GoodSplit(trunk, history, s, b, names, points) && Dag(history, s.git)
    ensures var p := Parts(history, s, b, names, points, false, |names|);
      var base, oldest := Stored(s.revs, b), Cuts(history, s, b, points)[1];
      p.Some? && Disjoint(trunk, p.value.now, names) && SameElsewhere(s, p.value.now, names) &&
      (Covers(trunk, s, b, names, p.value.now) <==> MeetsBelow(s.git, base, s.git.tips[b], oldest)) &&
      (Rooted(s, b) ==> (Covers(trunk, s, b, names, p.value.now) <==> s.git.reaches(base, oldest))) &&
      (OwnsSome(trunk, p.value.now, names[0]) <==> !s.git.reaches(oldest, base)) &&
      forall i :: 0 < i < |names| ==> OwnsSome(trunk, p.value.now, names[i])
  {
    var cuts, parent := Cuts(history, s, b, points), Parent(s.parents, b);
    CutsAre(trunk, history, s, b, names, points);
    CutsRise(trunk, history, s, b, names, points);
    var p := PartsMade(history, s, b, names, points, false, cuts, |names|);
    forall i, c | 0 <= i < |names|
      ensures Owns(trunk, p.now, names[i], c) <==> s.git.reaches(c, cuts[i + 1]) && !s.git.reaches(c, cuts[i])
    {
      PartOwns(trunk, s, p.now, parent, cuts, names, i, c);
    }
    PartsDisjoint(trunk, history, s, p.now, cuts, names);
    PartsFull(trunk, history, s, p.now, cuts, names);
    PartsCover(trunk, history, s, b, p.now, cuts, names);
    if Rooted(s, b) { RootedMeets(history, s, b, cuts[1]); }
  }

  lemma RootedMeets(history: History, s: Snapshot, b: string, oldest: string)
    requires Dag(history, s.git) && Rooted(s, b)
    ensures MeetsBelow(s.git, s.revs[b], s.git.tips[b], oldest) <==> s.git.reaches(s.revs[b], oldest)
  {
  }

  ghost predicate Between(trunk: string, s: Snapshot, s': Snapshot, cuts: seq<string>, names: seq<string>) {
    |cuts| == |names| + 1 && forall i, c :: 0 <= i < |names| ==>
      (Owns(trunk, s', names[i], c) <==> s.git.reaches(c, cuts[i + 1]) && !s.git.reaches(c, cuts[i]))
  }

  lemma PartsDisjoint(trunk: string, history: History, s: Snapshot, s': Snapshot, cuts: seq<string>, names: seq<string>)
    requires Dag(history, s.git) && Rising(s.git, cuts) && Between(trunk, s, s', cuts, names)
    ensures Disjoint(trunk, s', names)
  {
    forall i, j, c | 0 <= i < j < |names|
      ensures !(Owns(trunk, s', names[i], c) && Owns(trunk, s', names[j], c))
    {
      assert i + 1 == j || s.git.reaches(cuts[i + 1], cuts[j]);
    }
  }

  /** The tip of a part belongs to it. */
  lemma PartsFull(trunk: string, history: History, s: Snapshot, s': Snapshot, cuts: seq<string>, names: seq<string>)
    requires names != [] && Dag(history, s.git) && Rising(s.git, cuts) && Between(trunk, s, s', cuts, names)
    ensures OwnsSome(trunk, s', names[0]) <==> !s.git.reaches(cuts[1], cuts[0])
    ensures forall i :: 0 < i < |names| ==> OwnsSome(trunk, s', names[i])
  {
    forall i | 0 < i < |names| ensures OwnsSome(trunk, s', names[i]) {
      assert Owns(trunk, s', names[i], cuts[i + 1]);
    }
    if !s.git.reaches(cuts[1], cuts[0]) { assert Owns(trunk, s', names[0], cuts[1]); }
    if OwnsSome(trunk, s', names[0]) {
      var c :| Owns(trunk, s', names[0], c);
      assert s.git.reaches(c, cuts[1]) && !s.git.reaches(c, cuts[0]);
    }
  }

  lemma PartsCover(trunk: string, history: History, s: Snapshot, b: string, s': Snapshot, cuts: seq<string>,
      names: seq<string>)
    requires names != [] && Dag(history, s.git) && Rising(s.git, cuts) && Between(trunk, s, s', cuts, names)
    requires b != trunk && Stored(s.revs, b) == cuts[0] != "" && b in s.git.tips && cuts[|names|] == s.git.tips[b]
    ensures Covers(trunk, s, b, names, s') <==> MeetsBelow(s.git, cuts[0], cuts[|names|], cuts[1])
  {
    var n := |names|;
    if MeetsBelow(s.git, cuts[0], cuts[n], cuts[1]) {
      forall c ensures Owns(trunk, s, b, c) <==> OwnedBySome(trunk, s', names, c) {
        if Owns(trunk, s, b, c) {
          var i := FirstOwner(s.git, cuts, n, c);
          assert Owns(trunk, s', names[i], c);
        }
        if OwnedBySome(trunk, s', names, c) {
          var i :| 0 <= i < n && Owns(trunk, s', names[i], c);
          assert i + 1 == n || s.git.reaches(cuts[i + 1], cuts[n]);
          assert i <= 1 || s.git.reaches(cuts[1], cuts[i]);
        }
      }
    } else {
      var c :| s.git.reaches(c, cuts[0]) && s.git.reaches(c, cuts[n]) && !s.git.reaches(c, cuts[1]);
      var i := FirstBetween(s.git, cuts, n, c);
      assert Owns(trunk, s', names[i], c) && OwnedBySome(trunk, s', names, c) && !Owns(trunk, s, b, c);
    }
  }

  lemma {:induction false} FirstBetween(git: Git, cuts: seq<string>, n: nat, c: string) returns (i: nat)
    requires 0 < n < |cuts| && git.reaches(c, cuts[n]) && !git.reaches(c, cuts[1])
    ensures 0 < i < n && git.reaches(c, cuts[i + 1]) && !git.reaches(c, cuts[i])
  {
    if n > 2 && git.reaches(c, cuts[n - 1]) { i := FirstBetween(git, cuts, n - 1, c); } else { i := n - 1; }
  }

  // ---------- Stored revisions ----------

  /** A split, in a chain or side by side, keeps every stored revision an ancestor of its branch's tip iff the branch's
      divergence point is an ancestor of the oldest part's tip. */
  lemma SplitKeepsAnchored(trunk: string, history: History, s: Snapshot, b: string, names: seq<string>,
      points: seq<nat>, asSibling: bool)
    requires GoodSplit(trunk, history, s, b, names, points) && Dag(history, s.git) && Anchored(s)
    ensures var p := Parts(history, s, b, names, points, asSibling, |names|);
      p.Some? && (Anchored(p.value.now) <==> s.git.reaches(Stored(s.revs, b), Cuts(history, s, b, points)[1]))
  {
    var cuts, parent := Cuts(history, s, b, points), Parent(s.parents, b);
    CutsAre(trunk, history, s, b, names, points);
    CutsRise(trunk, history, s, b, names, points);
    var p := PartsMade(history, s, b, names, points, asSibling, cuts, |names|);
    assert IsPart(p.now, parent, cuts, names, asSibling, 0);
    if s.git.reaches(cuts[0], cuts[1]) {
      forall x | Stored(p.now.revs, x) != "" ensures AtTip(p.now.git, p.now.revs[x], x) {
        if x in names {
          var i: nat :| i < |names| && names[i] == x;
          assert IsPart(p.now, parent, cuts, names, asSibling, i);
          assert i == 0 || s.git.reaches(cuts[1], cuts[i + 1]);
        } else {
          assert SameBranch(s, p.now, x);
        }
      }
    } else {
      assert cuts[0] in cuts && Stored(p.now.revs, names[0]) == cuts[0] && !AtTip(p.now.git, cuts[0], names[0]);
    }
  }

  // ---------- A branch that holds a merge ----------

  /** The first parents of a branch of four commits on top of c0: own, and merged, which brings in side and side2. */
  function MergeHistory(): History {
    map["merged" := "own", "own" := "c0", "side2" := "side", "side" := "c0", "c0" := "r"]
  }

  function MergeAncestors(c: string): set<string> {
    if c == "merged" then {"own", "side2", "side", "c0", "r"}
    else if c == "side2" then {"side", "c0", "r"}
    else if c in {"own", "side"} then {"c0", "r"}
    else if c == "c0" then {"r"}
    else {}
  }

  function MergeSnapshot(): Snapshot {
    Snapshot(
      Git(map["t" := "c0", "b" := "merged"], (a, c) => a == c || a in MergeAncestors(c),
          (a, c) => None, (a, c) => false, (a, c) => false, c => false),
      map["b" := "t"], map["b" := "c0"])
  }

  /** The commits have different names. */
  lemma NamesDiffer()
    ensures |"r"| == 1 && |"c0"| == 2 && |"own"| == 3 && |"side"| == 4 && |"side2"| == 5 && |"merged"| == 6
  {
  }

  lemma MergeIsDag()
    ensures Dag(MergeHistory(), MergeSnapshot().git)
  {
    var git := MergeSnapshot().git;
    forall a, c, e | git.reaches(a, c) && git.reaches(c, e) ensures git.reaches(a, e) {
      if a != c && c != e { assert a in MergeAncestors(c) && c in MergeAncestors(e); }
    }
    forall c | c in MergeHistory() ensures git.reaches(MergeHistory()[c], c) && !git.reaches(c, MergeHistory()[c]) {
      var p := MergeHistory()[c];
      NamesDiffer();
      if c == "merged" { assert p == "own"; }
      else if c == "own" || c == "side" { assert p == "c0"; }
      else if c == "side2" { assert p == "side"; }
      else { assert c == "c0" && p == "r"; }
      assert p in MergeAncestors(c) && c != p && c !in MergeAncestors(p);
    }
  }

  lemma MergeOwns(c: string)
    ensures Owns("t", MergeSnapshot(), "b", c) <==> c in {"merged", "own", "side2", "side"}
  {
    var s := MergeSnapshot();
    assert OwnRange("t", s, "b") == Some(RevRange("c0", "merged")) by { assert "t"[0] != "b"[0]; }
    NamesDiffer();
    assert s.git.reaches(c, "merged") <==> c in {"merged", "own", "side2", "side", "c0", "r"};
    assert MergeAncestors("c0") == {"r"};
    assert s.git.reaches(c, "c0") <==> c in {"c0", "r"};
  }

  /** Offsets count first parents, while a branch that holds a merge owns more commits than it has first parents. A
      split at the oldest of its four commits, at offset 3, cuts below its divergence point, and the newest part comes
      to own a commit the branch did not. */
  lemma MergedSplitOverruns()
    ensures var s, names, points := MergeSnapshot(), ["lower", "b"], [0, 3];
      GoodSplit("t", MergeHistory(), s, "b", names, points) && Dag(MergeHistory(), s.git) && Rooted(s, "b") &&
      (forall c :: Owns("t", s, "b", c) <==> c in {"merged", "own", "side2", "side"}) &&
      Cuts(MergeHistory(), s, "b", points) == ["c0", "r", "merged"] &&
      var p := Parts(MergeHistory(), s, "b", names, points, false, 2);
      p.Some? && !Covers("t", s, "b", names, p.value.now)
  {
    var s, names, points: seq<nat> := MergeSnapshot(), ["lower", "b"], [0, 3];
    MergeIsDag();
    forall c ensures Owns("t", s, "b", c) <==> c in {"merged", "own", "side2", "side"} { MergeOwns(c); }
    MergeCuts();
    MergeCutsBelow();
    SplitPartitions("t", MergeHistory(), s, "b", names, points);
  }

  lemma MergeCutsBelow()
    ensures !MergeSnapshot().git.reaches("c0", "r")
  {
    NamesDiffer();
  }

  lemma MergeCuts()
    ensures var s, points := MergeSnapshot(), [0, 3];
      GoodSplit("t", MergeHistory(), s, "b", ["lower", "b"], points) && Rooted(s, "b") &&
      Cuts(MergeHistory(), s, "b", points) == ["c0", "r", "merged"]
  {
    var s, points: seq<nat> := MergeSnapshot(), [0, 3];
    var history := MergeHistory();
    assert Back(history, "merged", 3) == Back(history, "own", 2) == Back(history, "c0", 1) == Back(history, "r", 0);
    assert LeadsToCommit(history, "merged", 0) && LeadsToCommit(history, "merged", 3);
    assert |"lower"| == 5 && |"b"| == 1 && "t"[0] != "b"[0];
    assert s.git.reaches("c0", "merged");
  }
}
