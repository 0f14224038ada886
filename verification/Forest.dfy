/** The parent map over branches, walks up it, and forests rooted at trunk. */
module Forest {
  import opened Names

  type ParentMap = map<string, string>

  /** The recorded parent of a branch, or "" when none is recorded. */
  function Parent(pm: ParentMap, b: string): string {
    if b in pm then pm[b] else ""
  }

  /** The parent of a branch, trunk standing in for a missing one. */
  function ParentOrTrunk(pm: ParentMap, trunk: string, b: string): string {
    if b in pm then pm[b] else trunk
  }

  /** The n-th name on the walk up from b. */
  function Climb(pm: ParentMap, b: string, n: nat): string
    decreases n
  {
    if n == 0 then b else Climb(pm, Parent(pm, b), n - 1)
  }

  lemma {:induction false} ClimbAdd(pm: ParentMap, b: string, i: nat, j: nat)
    ensures Climb(pm, Climb(pm, b, i), j) == Climb(pm, b, i + j)
    decreases i
  {
    if i > 0 { ClimbAdd(pm, Parent(pm, b), i - 1, j); }
  }

  lemma ClimbStep(pm: ParentMap, b: string, i: nat)
    ensures Climb(pm, b, i + 1) == Parent(pm, Climb(pm, b, i))
  {
    ClimbAdd(pm, b, i, 1);
    assert Climb(pm, Climb(pm, b, i), 1) == Climb(pm, Parent(pm, Climb(pm, b, i)), 0);
  }

  // ---------- The nearest name outside a set ----------

  /** Step n of the walk from b is its first name outside the set ex. */
  ghost predicate FirstOutside(pm: ParentMap, ex: set<string>, b: string, n: nat) {
    Climb(pm, b, n) !in ex && forall i: nat :: i < n ==> Climb(pm, b, i) in ex
  }

  /** r is the first name outside ex on the walk up from b. */
  ghost predicate IsNearest(pm: ParentMap, ex: set<string>, b: string, r: string) {
    exists n: nat :: FirstOutside(pm, ex, b, n) && r == Climb(pm, b, n)
  }

  /** The walk from b leaves ex at some point. */
  ghost predicate Escapes(pm: ParentMap, ex: set<string>, b: string) {
    exists n: nat :: Climb(pm, b, n) !in ex
  }

  lemma {:induction false} FirstExit(pm: ParentMap, ex: set<string>, b: string, n: nat) returns (k: nat)
    requires Climb(pm, b, n) !in ex
    ensures k <= n && FirstOutside(pm, ex, b, k)
  {
    k := 0;
    while Climb(pm, b, k) in ex
      invariant k <= n && forall i: nat :: i < k ==> Climb(pm, b, i) in ex
      decreases n - k
    {
      k := k + 1;
    }
  }

  lemma NearestUnique(pm: ParentMap, ex: set<string>, b: string, r: string, r': string)
    requires IsNearest(pm, ex, b, r) && IsNearest(pm, ex, b, r')
    ensures r == r'
  {
    var n: nat :| FirstOutside(pm, ex, b, n) && r == Climb(pm, b, n);
    var n': nat :| FirstOutside(pm, ex, b, n') && r' == Climb(pm, b, n');
    assert n == n';
  }

  /** One step of the walk: a name outside ex is its own nearest, a name inside hands over to its parent. */
  lemma NearestStep(pm: ParentMap, ex: set<string>, b: string, r: string)
    ensures b !in ex ==> (IsNearest(pm, ex, b, r) <==> r == b)
    ensures b in ex ==> (IsNearest(pm, ex, b, r) <==> IsNearest(pm, ex, Parent(pm, b), r))
  {
    if b !in ex {
      assert FirstOutside(pm, ex, b, 0);
      if IsNearest(pm, ex, b, r) { NearestUnique(pm, ex, b, r, b); }
    } else {
      var p := Parent(pm, b);
      forall n: nat ensures FirstOutside(pm, ex, b, n + 1) <==> FirstOutside(pm, ex, p, n) {
        assert forall i: nat :: Climb(pm, b, i + 1) == Climb(pm, p, i);
        assert forall i: nat :: i < n + 1 ==> i == 0 || Climb(pm, b, i) == Climb(pm, p, i - 1);
      }
      if IsNearest(pm, ex, b, r) {
        var n: nat :| FirstOutside(pm, ex, b, n) && r == Climb(pm, b, n);
        assert FirstOutside(pm, ex, p, n - 1);
      }
      if IsNearest(pm, ex, p, r) {
        var n: nat :| FirstOutside(pm, ex, p, n) && r == Climb(pm, p, n);
        assert FirstOutside(pm, ex, b, n + 1);
      }
    }
  }

  /** Maps that agree on ex lead a walk through ex alike, up to where it leaves ex. */
  lemma {:induction false} ClimbFrame(pm: ParentMap, pm': ParentMap, ex: set<string>, b: string, n: nat)
    requires forall x :: x in ex ==> Parent(pm, x) == Parent(pm', x)
    requires forall i: nat :: i < n ==> Climb(pm, b, i) in ex
    ensures forall i: nat :: i <= n ==> Climb(pm', b, i) == Climb(pm, b, i)
  {
    if n > 0 {
      ClimbFrame(pm, pm', ex, b, n - 1);
      ClimbStep(pm, b, n - 1);
      ClimbStep(pm', b, n - 1);
    }
  }

  lemma NearestFrame(pm: ParentMap, pm': ParentMap, ex: set<string>, b: string)
    requires forall x :: x in ex ==> Parent(pm, x) == Parent(pm', x)
    ensures Escapes(pm, ex, b) <==> Escapes(pm', ex, b)
    ensures forall r :: IsNearest(pm, ex, b, r) <==> IsNearest(pm', ex, b, r)
  {
    forall n: nat ensures FirstOutside(pm, ex, b, n) <==> FirstOutside(pm', ex, b, n)
      ensures FirstOutside(pm, ex, b, n) ==> Climb(pm, b, n) == Climb(pm', b, n)
    {
      if FirstOutside(pm, ex, b, n) { ClimbFrame(pm, pm', ex, b, n); }
      if FirstOutside(pm', ex, b, n) { ClimbFrame(pm', pm, ex, b, n); }
    }
    if Escapes(pm, ex, b) {
      var n: nat :| Climb(pm, b, n) !in ex;
      var k := FirstExit(pm, ex, b, n);
      assert FirstOutside(pm', ex, b, k);
    }
    if Escapes(pm', ex, b) {
      var n: nat :| Climb(pm', b, n) !in ex;
      var k := FirstExit(pm', ex, b, n);
      assert FirstOutside(pm, ex, b, k);
    }
  }

  // ---------- Pigeonhole: a walk that stays in a finite set long enough never leaves it ----------

  lemma {:induction false} DistinctFits(q: seq<string>, s: set<string>)
    requires Distinct(q) && forall x :: x in q ==> x in s
    ensures |q| <= |s|
    decreases |q|
  {
    if q != [] {
      DistinctFits(q[1..], s - {q[0]});
    }
  }

  lemma {:induction false} CyclicWalkStays(pm: ParentMap, b: string, i: nat, j: nat, n: nat) returns (m: nat)
    requires i < j && Climb(pm, b, i) == Climb(pm, b, j)
    ensures m < j && Climb(pm, b, n) == Climb(pm, b, m)
    decreases n
  {
    if n < j {
      m := n;
    } else {
      ClimbAdd(pm, b, i, n - j);
      ClimbAdd(pm, b, j, n - j);
      m := CyclicWalkStays(pm, b, i, j, i + (n - j));
    }
  }

  /** If the first |ex| + 1 names of a walk are all in ex, every name of it is. */
  lemma LongWalkNeverEscapes(pm: ParentMap, ex: set<string>, b: string)
    requires forall i: nat :: i <= |ex| ==> Climb(pm, b, i) in ex
    ensures !Escapes(pm, ex, b)
  {
    var q := seq(|ex| + 1, i requires 0 <= i => Climb(pm, b, i));
    if Distinct(q) { DistinctFits(q, ex); }
    var i, j :| 0 <= i < j < |q| && q[i] == q[j];
    forall n: nat ensures Climb(pm, b, n) in ex {
      var m := CyclicWalkStays(pm, b, i, j, n);
    }
  }

  // ---------- Acyclic maps ----------

  /** No branch is its own ancestor. */
  ghost predicate Acyclic(pm: ParentMap) {
    forall b, n: nat :: b in pm && n > 0 ==> Climb(pm, b, n) != b
  }

  /** On an acyclic map every walk leaves every set of tracked branches, at a name that is untracked if no sooner. */
  lemma AcyclicEscapes(pm: ParentMap, ex: set<string>, b: string)
    requires Acyclic(pm) && ex <= pm.Keys
    ensures Escapes(pm, ex, b)
  {
    if !Escapes(pm, ex, b) {
      var q := seq(|ex| + 1, i requires 0 <= i => Climb(pm, b, i));
      if Distinct(q) { DistinctFits(q, ex); }
      var i, j :| 0 <= i < j < |q| && q[i] == q[j];
      ClimbAdd(pm, b, i, j - i);
    }
  }

  // ---------- Forests ----------

  ghost predicate ReachesTrunk(pm: ParentMap, trunk: string, b: string) {
    exists n: nat :: Climb(pm, b, n) == trunk
  }

  /** Trunk is untracked and every tracked branch's parent chain reaches it. */
  ghost predicate WellFormed(pm: ParentMap, trunk: string) {
    trunk != "" && trunk !in pm && "" !in pm &&
    forall b :: b in pm ==> ReachesTrunk(pm, trunk, b)
  }

  type Rank = map<string, nat>

  /** A rank that falls along every parent edge: the chains are finite and end at trunk. */
  ghost predicate Ranked(pm: ParentMap, trunk: string, rank: Rank) {
    trunk != "" && trunk !in pm && "" !in pm && pm.Keys <= rank.Keys &&
    forall b :: b in pm ==> pm[b] == trunk || (pm[b] in pm && rank[pm[b]] < rank[b])
  }

  lemma {:induction false} RankedReaches(pm: ParentMap, trunk: string, rank: Rank, b: string)
    requires Ranked(pm, trunk, rank) && b in pm
    ensures ReachesTrunk(pm, trunk, b)
    decreases rank[b]
  {
    if pm[b] == trunk {
      assert Climb(pm, b, 1) == Climb(pm, trunk, 0);
    } else {
      RankedReaches(pm, trunk, rank, pm[b]);
      var n: nat :| Climb(pm, pm[b], n) == trunk;
      assert Climb(pm, b, n + 1) == trunk;
    }
  }

  lemma RankedWellFormed(pm: ParentMap, trunk: string, rank: Rank)
    requires Ranked(pm, trunk, rank)
    ensures WellFormed(pm, trunk)
  {
    forall b | b in pm ensures ReachesTrunk(pm, trunk, b) {
      RankedReaches(pm, trunk, rank, b);
    }
  }

  lemma {:induction false} ClimbNowhere(pm: ParentMap, n: nat)
    requires "" !in pm
    ensures Climb(pm, "", n) == ""
  {
    if n > 0 { ClimbNowhere(pm, n - 1); }
  }

  /** Trunk is met once on a walk: after it the walk is past every name. */
  lemma TrunkMetOnce(pm: ParentMap, trunk: string, b: string, m: nat, n: nat)
    requires trunk != "" && trunk !in pm && "" !in pm
    requires Climb(pm, b, m) == trunk == Climb(pm, b, n)
    ensures m == n
  {
    var lo, hi := if m < n then m else n, if m < n then n else m;
    if lo < hi {
      ClimbAdd(pm, b, lo, hi - lo);
      assert Climb(pm, trunk, hi - lo) == Climb(pm, "", hi - lo - 1);
      ClimbNowhere(pm, hi - lo - 1);
    }
  }

  /** The number of parent edges between a branch and trunk. */
  ghost function Depth(pm: ParentMap, trunk: string, b: string): (n: nat)
    requires ReachesTrunk(pm, trunk, b)
    ensures Climb(pm, b, n) == trunk
  {
    var n: nat :| Climb(pm, b, n) == trunk;
    n
  }

  ghost function Depths(pm: ParentMap, trunk: string): Rank
    requires WellFormed(pm, trunk)
  {
    map b | b in pm :: Depth(pm, trunk, b)
  }

  /** Depth is a rank, so reaching trunk and having a rank are the same thing. */
  lemma DepthsRank(pm: ParentMap, trunk: string)
    requires WellFormed(pm, trunk)
    ensures Ranked(pm, trunk, Depths(pm, trunk))
  {
    forall b | b in pm && pm[b] != trunk ensures pm[b] in pm && Depth(pm, trunk, pm[b]) < Depth(pm, trunk, b) {
      var n := Depth(pm, trunk, b);
      assert Climb(pm, b, n) == Climb(pm, pm[b], n - 1);
      if pm[b] !in pm {
        assert n > 1;
        assert Climb(pm, pm[b], n - 1) == Climb(pm, "", n - 2);
        ClimbNowhere(pm, n - 2);
      }
      TrunkMetOnce(pm, trunk, pm[b], n - 1, Depth(pm, trunk, pm[b]));
    }
  }

  /** The branches ranked above b: a measure for going down the forest. */
  ghost function Above(pm: ParentMap, rank: Rank, b: string): set<string>
    requires pm.Keys <= rank.Keys
  {
    set x | x in pm && (b in pm ==> rank[x] > rank[b])
  }

  lemma AboveShrinks(pm: ParentMap, rank: Rank, b: string, c: string)
    requires pm.Keys <= rank.Keys && c in pm && (b in pm ==> rank[b] < rank[c])
    ensures Above(pm, rank, c) < Above(pm, rank, b)
  {
    assert c in Above(pm, rank, b) && c !in Above(pm, rank, c);
  }

  // ---------- Walks past a set of branches in a forest ----------

  /** In a forest a walk leaves every set of names that does not hold trunk, at trunk or at a tracked branch. */
  lemma {:induction false} ForestNearest(pm: ParentMap, trunk: string, rank: Rank, ex: set<string>, b: string)
    returns (r: string)
    requires Ranked(pm, trunk, rank) && trunk !in ex
    requires b == trunk || b in pm
    ensures IsNearest(pm, ex, b, r)
    ensures r == trunk || (r in pm && (r == b || (b in pm && rank[r] < rank[b])))
    decreases if b in pm then 1 + rank[b] else 0
  {
    NearestStep(pm, ex, b, b);
    if b !in ex {
      r := b;
    } else {
      r := ForestNearest(pm, trunk, rank, ex, pm[b]);
      NearestStep(pm, ex, b, r);
    }
  }

  /** Two sets that agree on the ancestors of b give b the same nearest ancestor. */
  lemma {:induction false} NearestAgrees(pm: ParentMap, trunk: string, rank: Rank, ex: set<string>, ex': set<string>,
      known: set<string>, b: string, r: string)
    requires Ranked(pm, trunk, rank) && trunk !in ex && trunk !in ex'
    requires b == trunk || b in known
    requires forall x :: x in known ==> x in pm && (pm[x] == trunk || pm[x] in known) && (x in ex <==> x in ex')
    ensures IsNearest(pm, ex, b, r) <==> IsNearest(pm, ex', b, r)
    decreases if b in pm then 1 + rank[b] else 0
  {
    NearestStep(pm, ex, b, r);
    NearestStep(pm, ex', b, r);
    if b in known {
      NearestAgrees(pm, trunk, rank, ex, ex', known, pm[b], r);
    }
  }
}
