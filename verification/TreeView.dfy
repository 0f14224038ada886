/** The visible forest of the tree command: worktree anchors are walked past in both directions. */
module TreeView {
  import opened Wrappers
  import opened Names
  import opened Forest
  import opened LinearShape
  import opened StackGraph

  method VisibleTreeParent(pm: ParentMap, trunk: string, anchors: set<string>, b: string) returns (r: Option<string>)
    requires WellFormed(pm, trunk) && anchors <= pm.Keys
    ensures if b in pm then r.Some? && IsNearest(pm, anchors, pm[b], r.value) else r.None?
  {
    if b !in pm { return None; }
    DepthsRank(pm, trunk);
    ghost var rank := Depths(pm, trunk);
    ghost var found := ForestNearest(pm, trunk, rank, anchors, pm[b]);
    var parent := pm[b];
    while parent in anchors
      invariant parent == trunk || parent in pm
      invariant IsNearest(pm, anchors, parent, found) && (IsNearest(pm, anchors, pm[b], found))
      decreases if parent in pm then 1 + rank[parent] else 0
    {
      NearestStep(pm, anchors, parent, found);
      parent := pm[parent];
    }
    NearestStep(pm, anchors, parent, found);
    return Some(parent);
  }

  /** c is not an anchor, and only anchors lie between it and p. */
  ghost predicate ShownUnder(pm: ParentMap, anchors: set<string>, c: string, p: string) {
    exists n: nat :: Hangs(pm, anchors, c, n, p)
  }

  /** A chain meets a branch once. */
  lemma MetOnce(pm: ParentMap, trunk: string, c: string, m: nat, n: nat)
    requires WellFormed(pm, trunk) && Climb(pm, c, m) == Climb(pm, c, n) &&
      (Climb(pm, c, m) == trunk || Climb(pm, c, m) in pm)
    ensures m == n
  {
    var x := Climb(pm, c, m);
    if x == trunk {
      TrunkMetOnce(pm, trunk, c, m, n);
    } else {
      var d := Depth(pm, trunk, x);
      ClimbAdd(pm, c, m, d);
      ClimbAdd(pm, c, n, d);
      TrunkMetOnce(pm, trunk, c, m + d, n + d);
    }
  }

  /** What is shown under p is its own non-anchor children and what is shown under its anchor children. */
  lemma ShownStep(pm: ParentMap, anchors: set<string>, c: string, p: string)
    ensures ShownUnder(pm, anchors, c, p) <==>
      (c in pm && pm[c] == p && c !in anchors) || (p == "" && c !in pm && c !in anchors) ||
      exists a :: a in anchors && Parent(pm, a) == p && ShownUnder(pm, anchors, c, a)
  {
    if ShownUnder(pm, anchors, c, p) {
      var n: nat :| Hangs(pm, anchors, c, n, p);
      ClimbStep(pm, c, n - 1);
      if n > 1 { assert Hangs(pm, anchors, c, n - 1, Climb(pm, c, n - 1)); }
    }
    if c !in anchors && Parent(pm, c) == p {
      ClimbStep(pm, c, 0);
      assert Hangs(pm, anchors, c, 1, p);
    }
    if a :| a in anchors && Parent(pm, a) == p && ShownUnder(pm, anchors, c, a) {
      var n: nat :| Hangs(pm, anchors, c, n, a);
      ClimbStep(pm, c, n);
      assert Hangs(pm, anchors, c, n + 1, p);
    }
  }

  /** A branch is shown under one child of a parent only. */
  lemma ShownOnce(pm: ParentMap, trunk: string, anchors: set<string>, c: string, a: string, a': string)
    requires WellFormed(pm, trunk) && a in pm && a' in pm && pm[a] == pm[a'] && (pm[a] == trunk || pm[a] in pm)
    requires ShownUnder(pm, anchors, c, a) || c == a
    requires ShownUnder(pm, anchors, c, a') || c == a'
    ensures a == a'
  {
    var n: nat :| Climb(pm, c, n) == a by {
      if c == a { assert Climb(pm, c, 0) == a; } else { var k: nat :| Hangs(pm, anchors, c, k, a); }
    }
    var n': nat :| Climb(pm, c, n') == a' by {
      if c == a' { assert Climb(pm, c, 0) == a'; } else { var k: nat :| Hangs(pm, anchors, c, k, a'); }
    }
    ClimbStep(pm, c, n);
    ClimbStep(pm, c, n');
    MetOnce(pm, trunk, c, n + 1, n' + 1);
  }

  /** Shown because of one child of a branch: the child itself, or what is shown under it if it is an anchor. */
  ghost predicate Via(pm: ParentMap, anchors: set<string>, c: string, child: string) {
    if child in anchors then ShownUnder(pm, anchors, c, child) else c == child
  }

  ghost predicate ViaSome(pm: ParentMap, anchors: set<string>, c: string, children: seq<string>) {
    exists j :: 0 <= j < |children| && Via(pm, anchors, c, children[j])
  }

  lemma ViaAppend(pm: ParentMap, anchors: set<string>, children: seq<string>, child: string)
    ensures forall c :: ViaSome(pm, anchors, c, children + [child]) <==>
      ViaSome(pm, anchors, c, children) || Via(pm, anchors, c, child)
  {
    forall c
      ensures ViaSome(pm, anchors, c, children + [child]) <==>
        ViaSome(pm, anchors, c, children) || Via(pm, anchors, c, child)
    {
      var all := children + [child];
      assert all[|children|] == child;
      if j :| 0 <= j < |children| && Via(pm, anchors, c, children[j]) { assert all[j] == children[j]; }
    }
  }

  /** What is shown under p is what its children show. */
  lemma ChildrenShow(branches: seq<string>, pm: ParentMap, trunk: string, anchors: set<string>, p: string,
      children: seq<string>)
    requires Closed(branches, pm, trunk) && anchors <= pm.Keys && p != "" && "" !in pm
    requires forall c :: c in children <==> GraphParent(branches, pm, c) == p
    ensures forall c :: ViaSome(pm, anchors, c, children) <==> ShownUnder(pm, anchors, c, p)
  {
    forall c ensures ViaSome(pm, anchors, c, children) <==> ShownUnder(pm, anchors, c, p) {
      ShownStep(pm, anchors, c, p);
      if a :| a in anchors && Parent(pm, a) == p && ShownUnder(pm, anchors, c, a) {
        assert GraphParent(branches, pm, a) == p && a in children;
        var j :| 0 <= j < |children| && children[j] == a;
        assert Via(pm, anchors, c, children[j]);
      }
      if c in pm && pm[c] == p && c !in anchors {
        assert GraphParent(branches, pm, c) == p && c in children;
        var j :| 0 <= j < |children| && children[j] == c;
        assert Via(pm, anchors, c, children[j]);
      }
      if ViaSome(pm, anchors, c, children) {
        var j :| 0 <= j < |children| && Via(pm, anchors, c, children[j]);
        assert children[j] in children;
      }
    }
  }

  // ---------- The order of the list ----------

  /** c and d lie at or below children of one branch, c's child coming first by name. */
  ghost predicate Before(pm: ParentMap, c: string, d: string) {
    exists m: nat, n: nat :: InOrder(pm, Climb(pm, c, m), Climb(pm, d, n))
  }

  /** Children of one branch, in order of name. */
  ghost predicate InOrder(pm: ParentMap, a: string, a': string) {
    a in pm && a' in pm && pm[a] == pm[a'] && Less(a, a')
  }

  ghost predicate InTreeOrder(pm: ParentMap, q: seq<string>) {
    forall i, j :: 0 <= i < j < |q| ==> Before(pm, q[i], q[j])
  }

  /** Steps up a chain of tracked branches lose as many steps to trunk. */
  lemma DepthAbove(pm: ParentMap, trunk: string, c: string, m: nat)
    requires WellFormed(pm, trunk) && Climb(pm, c, m) in pm
    ensures ReachesTrunk(pm, trunk, c) && Depth(pm, trunk, c) == m + Depth(pm, trunk, Climb(pm, c, m))
  {
    var a := Climb(pm, c, m);
    ClimbAdd(pm, c, m, Depth(pm, trunk, a));
    TrunkMetOnce(pm, trunk, c, Depth(pm, trunk, c), m + Depth(pm, trunk, a));
  }

  /** Children of one branch are equally deep. */
  lemma SiblingsLevel(pm: ParentMap, trunk: string, a: string, a': string)
    requires WellFormed(pm, trunk) && a in pm && a' in pm && pm[a] == pm[a']
    ensures Depth(pm, trunk, a) == Depth(pm, trunk, a')
  {
    var n, n' := Depth(pm, trunk, a), Depth(pm, trunk, a');
    assert n > 0 && n' > 0;
    assert Climb(pm, a', n) == Climb(pm, pm[a], n - 1) == trunk;
    TrunkMetOnce(pm, trunk, a', n, n');
  }

  /** Above two children of one branch the same branches lie. */
  lemma SiblingsMeet(pm: ParentMap, a: string, a': string, k: nat)
    requires a in pm && a' in pm && pm[a] == pm[a'] && k > 0
    ensures Climb(pm, a, k) == Climb(pm, a', k)
  {
  }

  /** In a forest the order is a strict one: no two branches come each before the other, and none before itself. */
  lemma BeforeAsymmetric(pm: ParentMap, trunk: string, c: string, d: string)
    requires WellFormed(pm, trunk) && Before(pm, c, d)
    ensures !Before(pm, d, c)
  {
    if Before(pm, d, c) {
      var m: nat, n: nat :| InOrder(pm, Climb(pm, c, m), Climb(pm, d, n));
      var n': nat, m': nat :| InOrder(pm, Climb(pm, d, n'), Climb(pm, c, m'));
      var a, a', e, e' := Climb(pm, c, m), Climb(pm, d, n), Climb(pm, d, n'), Climb(pm, c, m');
      LessAsymmetric(a, a');
      LessAsymmetric(e, e');
      DepthAbove(pm, trunk, c, m);
      DepthAbove(pm, trunk, d, n);
      DepthAbove(pm, trunk, d, n');
      DepthAbove(pm, trunk, c, m');
      SiblingsLevel(pm, trunk, a, a');
      SiblingsLevel(pm, trunk, e, e');
      assert m - n == m' - n';
      if m < m' {
        ClimbAdd(pm, c, m, m' - m);
        ClimbAdd(pm, d, n, n' - n);
        SiblingsMeet(pm, a, a', m' - m);
      } else if m' < m {
        ClimbAdd(pm, c, m', m - m');
        ClimbAdd(pm, d, n', n - n');
        SiblingsMeet(pm, e, e', m - m');
      }
    }
  }

  /** A set of branches of a forest has one list in tree order. */
  lemma {:induction false} TreeOrderUnique(pm: ParentMap, trunk: string, q: seq<string>, q': seq<string>)
    requires WellFormed(pm, trunk) && InTreeOrder(pm, q) && InTreeOrder(pm, q') && Elems(q) == Elems(q')
    ensures q == q'
  {
    FirstElem(q);
    FirstElem(q');
    if q != [] {
      TreeOrderDistinct(pm, trunk, q);
      TreeOrderDistinct(pm, trunk, q');
      if q[0] != q'[0] {
        var i :| 0 < i < |q| && q[i] == q'[0];
        var j :| 0 < j < |q'| && q'[j] == q[0];
        BeforeAsymmetric(pm, trunk, q[0], q'[0]);
      }
      DistinctTail(q);
      DistinctTail(q');
      TreeOrderUnique(pm, trunk, q[1..], q'[1..]);
      assert q == [q[0]] + q[1..] && q' == [q'[0]] + q'[1..];
    }
  }

  lemma TreeOrderDistinct(pm: ParentMap, trunk: string, q: seq<string>)
    requires WellFormed(pm, trunk) && InTreeOrder(pm, q)
    ensures Distinct(q)
  {
    forall i, j | 0 <= i < j < |q| ensures q[i] != q[j] { BeforeAsymmetric(pm, trunk, q[i], q[j]); }
  }

  lemma BeforeVia(pm: ParentMap, anchors: set<string>, c: string, a: string, d: string, a': string)
    requires Via(pm, anchors, c, a) && Via(pm, anchors, d, a') && InOrder(pm, a, a')
    ensures Before(pm, c, d)
  {
    var m: nat :| Climb(pm, c, m) == a by {
      if c == a { assert Climb(pm, c, 0) == a; } else { var k: nat :| Hangs(pm, anchors, c, k, a); }
    }
    var n: nat :| Climb(pm, d, n) == a' by {
      if d == a' { assert Climb(pm, d, 0) == a'; } else { var k: nat :| Hangs(pm, anchors, d, k, a'); }
    }
    assert InOrder(pm, Climb(pm, c, m), Climb(pm, d, n));
  }

  lemma OrderAppend(pm: ParentMap, q: seq<string>, more: seq<string>)
    requires InTreeOrder(pm, q) && InTreeOrder(pm, more)
    requires forall c, d :: c in q && d in more ==> Before(pm, c, d)
    ensures InTreeOrder(pm, q + more)
  {
    var all := q + more;
    forall i, j | 0 <= i < j < |all| ensures Before(pm, all[i], all[j]) {
      if i < |q| <= j { assert q[i] in q && more[j - |q|] in more; }
    }
  }

  /** What one more child shows comes after what the children before it show. */
  lemma NextChildFollows(pm: ParentMap, anchors: set<string>, children: seq<string>, i: nat, p: string,
      q: seq<string>, more: seq<string>)
    requires Sorted(children) && i < |children| && forall c :: c in children ==> c in pm && pm[c] == p
    requires forall c :: c in q ==> ViaSome(pm, anchors, c, children[..i])
    requires forall d :: d in more ==> Via(pm, anchors, d, children[i])
    ensures forall c, d :: c in q && d in more ==> Before(pm, c, d)
  {
    forall c, d | c in q && d in more ensures Before(pm, c, d) {
      var j :| 0 <= j < i && Via(pm, anchors, c, children[..i][j]);
      assert children[j] in children && children[i] in children;
      BeforeVia(pm, anchors, c, children[j], d, children[i]);
    }
  }

  /** Collects the branches shown under p, anchors replaced by what is shown under them. */
  method VisibleTreeChildren(branches: seq<string>, pm: ParentMap, trunk: string, anchors: set<string>, p: string,
      ghost rank: Rank)
    returns (q: seq<string>)
    requires WellFormed(pm, trunk) && Closed(branches, pm, trunk) && anchors <= pm.Keys
    requires Ranked(pm, trunk, rank) && (p == trunk || p in pm)
    ensures Distinct(q) && forall c :: c in q <==> ShownUnder(pm, anchors, c, p)
    ensures InTreeOrder(pm, q)
    decreases Above(pm, rank, p)
  {
    var children := ChildBranches(branches, pm, p);
    SortedDistinct(children);
    q := [];
    for i := 0 to |children|
      invariant Distinct(q) && forall c :: c in q <==> ViaSome(pm, anchors, c, children[..i])
      invariant InTreeOrder(pm, q)
    {
      var child := children[i];
      assert child in children && children[..i + 1] == children[..i] + [child];
      AboveShrinks(pm, rank, p, child);
      ViaAppend(pm, anchors, children[..i], child);
      var more := [child];
      if child in anchors {
        more := VisibleTreeChildren(branches, pm, trunk, anchors, child, rank);
      }
      forall c | c in more ensures c !in q {
        if j :| 0 <= j < i && Via(pm, anchors, c, children[j]) {
          assert children[j] in children;
          ShownOnce(pm, trunk, anchors, c, child, children[j]);
        }
      }
      DistinctAppend(q, more);
      NextChildFollows(pm, anchors, children, i, p, q, more);
      OrderAppend(pm, q, more);
      q := q + more;
    }
    assert children[..|children|] == children;
    ChildrenShow(branches, pm, trunk, anchors, p, children);
  }

  /** Walking past anchors is consistent both ways: a branch is shown under b iff b is its visible parent. */
  lemma ParentAndChildrenAgree(pm: ParentMap, trunk: string, anchors: set<string>, b: string, c: string)
    requires WellFormed(pm, trunk) && anchors <= pm.Keys && b !in anchors && c !in anchors && (b == trunk || b in pm)
    ensures ShownUnder(pm, anchors, c, b) <==> c in pm && IsNearest(pm, anchors, pm[c], b)
  {
    if ShownUnder(pm, anchors, c, b) {
      var n: nat :| Hangs(pm, anchors, c, n, b);
      if c !in pm {
        ClimbNowhere(pm, n - 1);
      } else {
        assert forall i: nat :: i < n - 1 ==> Climb(pm, pm[c], i) == Climb(pm, c, i + 1);
        assert FirstOutside(pm, anchors, pm[c], n - 1);
      }
    }
    if c in pm && IsNearest(pm, anchors, pm[c], b) {
      var n: nat :| FirstOutside(pm, anchors, pm[c], n) && b == Climb(pm, pm[c], n);
      assert forall i: nat :: i > 0 ==> Climb(pm, c, i) == Climb(pm, pm[c], i - 1);
      assert Hangs(pm, anchors, c, n + 1, b);
    }
  }
}
