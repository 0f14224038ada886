/** The commits of the parts as lists, for a branch whose history is a line. */
module SplitListing {
  import opened Wrappers
  import opened Names
  import opened Forest
  import opened Divergence
  import opened Split

  // ---------- Linear history ----------

  /** The commits after base up to head, oldest first, looking at most limit commits back. */
  function RevList(history: History, base: string, head: string, limit: nat): seq<string>
    decreases limit
  {
    if head == base || limit == 0 then []
    else (if head in history then RevList(history, base, history[head], limit - 1) else []) + [head]
  }

  /** A stretch of history, oldest commit first. */
  ghost predicate IsLine(history: History, line: seq<string>) {
    line != [] && Distinct(line) && forall j :: 0 < j < |line| ==> line[j] in history && history[line[j]] == line[j - 1]
  }

  lemma {:induction false} BackOnLine(history: History, line: seq<string>, j: nat, k: nat)
    requires IsLine(history, line) && k <= j < |line|
    ensures Back(history, line[j], k) == Some(line[j - k])
  {
    if k > 0 { BackOnLine(history, line, j - 1, k - 1); }
  }

  lemma {:induction false} RevListOnLine(history: History, line: seq<string>, lo: nat, hi: nat)
    requires IsLine(history, line) && lo <= hi < |line|
    ensures RevList(history, line[lo], line[hi], |line|) == line[lo + 1..hi + 1]
  {
    RevListFrom(history, line, lo, hi, |line|);
  }

  lemma {:induction false} RevListFrom(history: History, line: seq<string>, lo: nat, hi: nat, limit: nat)
    requires IsLine(history, line) && lo <= hi < |line| && hi - lo <= limit
    ensures RevList(history, line[lo], line[hi], limit) == line[lo + 1..hi + 1]
  {
    if lo < hi {
      RevListFrom(history, line, lo, hi - 1, limit - 1);
      assert line[lo + 1..hi + 1] == line[lo + 1..hi] + [line[hi]];
    }
  }

  // ---------- The parts listed ----------

  /** A split of a branch whose own commits, from the divergence point line[0] on, are a line, at some of them. */
  ghost predicate LinearSplit(trunk: string, history: History, line: seq<string>, s: Snapshot, b: string,
      names: seq<string>, points: seq<nat>) {
    GoodSplit(trunk, history, s, b, names, points) && IsLine(history, line) && "" !in line &&
    line[|line| - 1] == s.git.tips[b] && line[0] == Stored(s.revs, b) && points[|points| - 1] < |line| - 1
  }

  /** The position on the line of the i-th cut. */
  function Cut(line: seq<string>, points: seq<nat>, i: nat): (r: int)
    requires i <= |points|
  {
    if i == 0 then 0 else |line| - 1 - points[|points| - i]
  }

  ghost predicate Rises(line: seq<string>, points: seq<nat>, cuts: seq<string>, i: nat)
    requires |cuts| == |points| + 1 && i < |points|
  {
    var lo, hi := Cut(line, points, i), Cut(line, points, i + 1);
    0 <= lo < hi < |line| && cuts[i] == line[lo] && cuts[i + 1] == line[hi]
  }

  /** The cuts lie on the line, one above the other. */
  ghost predicate OnLine(line: seq<string>, points: seq<nat>, cuts: seq<string>) {
    |cuts| == |points| + 1 && forall i: nat :: i < |points| ==> Rises(line, points, cuts, i)
  }

  lemma CutsOnLine(trunk: string, history: History, line: seq<string>, s: Snapshot, b: string, names: seq<string>,
      points: seq<nat>)
    requires LinearSplit(trunk, history, line, s, b, names, points)
    ensures OnLine(line, points, Cuts(history, s, b, points))
    ensures Cut(line, points, |points|) == |line| - 1
  {
    var cuts := Cuts(history, s, b, points);
    forall i: nat | i < |points| ensures Rises(line, points, cuts, i) {
      BackOnLine(history, line, |line| - 1, points[|points| - 1 - i]);
      if i > 0 { BackOnLine(history, line, |line| - 1, points[|points| - i]); }
    }
  }

  function CommitsOf(trunk: string, s: Snapshot, history: History, b: string, limit: nat): seq<string> {
    match OwnRange(trunk, s, b)
    case None => []
    case Some(r) => RevList(history, r.base, r.head, limit)
  }

  /** The commits the first n parts own, oldest part first. */
  function Owned(trunk: string, s: Snapshot, history: History, names: seq<string>, n: nat, limit: nat): seq<string>
    requires n <= |names|
    decreases n
  {
    if n == 0 then []
    else Owned(trunk, s, history, names, n - 1, limit) + CommitsOf(trunk, s, history, names[n - 1], limit)
  }

  /** The commits after position lo up to position hi. */
  function Stretch(line: seq<string>, lo: int, hi: int): seq<string>
    requires 0 <= lo <= hi < |line|
  {
    line[lo + 1..hi + 1]
  }

  lemma StretchJoin(line: seq<string>, lo: int, hi: int)
    requires 0 <= lo <= hi < |line|
    ensures Stretch(line, 0, 0) == [] && Stretch(line, 0, lo) + Stretch(line, lo, hi) == Stretch(line, 0, hi)
  {
  }

  /** The commits of one part lie between its cuts. */
  lemma PartLists(trunk: string, history: History, line: seq<string>, s: Snapshot, parent: string, cuts: seq<string>,
      names: seq<string>, points: seq<nat>, i: nat)
    requires IsLine(history, line) && "" !in line && trunk !in names && |cuts| == |names| + 1 == |points| + 1
    requires AreParts(s, parent, cuts, names, false, |names|) && i < |names| && Rises(line, points, cuts, i)
    ensures CommitsOf(trunk, s, history, names[i], |line|) ==
      Stretch(line, Cut(line, points, i), Cut(line, points, i + 1))
  {
    var lo := Cut(line, points, i);
    assert IsPart(s, parent, cuts, names, false, i) && names[i] in names && line[lo] in line;
    RevListOnLine(history, line, lo, Cut(line, points, i + 1));
  }

  lemma {:induction false} PartsList(trunk: string, history: History, line: seq<string>, s: Snapshot, parent: string,
      cuts: seq<string>, names: seq<string>, points: seq<nat>, n: nat)
    requires IsLine(history, line) && "" !in line && trunk !in names && |cuts| == |names| + 1 == |points| + 1
    requires AreParts(s, parent, cuts, names, false, |names|) && n <= |names|
    requires OnLine(line, points, cuts) && |line| > 0
    ensures 0 <= Cut(line, points, n) < |line|
    ensures Owned(trunk, s, history, names, n, |line|) == Stretch(line, 0, Cut(line, points, n))
    decreases n
  {
    if n == 0 {
      StretchJoin(line, 0, 0);
    } else {
      var lo, hi := Cut(line, points, n - 1), Cut(line, points, n);
      assert 0 <= lo < hi < |line| by { assert Rises(line, points, cuts, n - 1); }
      PartsList(trunk, history, line, s, parent, cuts, names, points, n - 1);
      PartLists(trunk, history, line, s, parent, cuts, names, points, n - 1);
      assert Owned(trunk, s, history, names, n, |line|) == Stretch(line, 0, lo) + Stretch(line, lo, hi);
      StretchJoin(line, lo, hi);
    }
  }

  /** What a chain split of a linear branch leaves. */
  ghost predicate Partitioned(trunk: string, history: History, line: seq<string>, s: Snapshot, b: string,
      names: seq<string>, s': Snapshot) {
    && Owned(trunk, s', history, names, |names|, |line|) == CommitsOf(trunk, s, history, b, |line|)
    && Distinct(Owned(trunk, s', history, names, |names|, |line|))
    && forall i: nat :: i < |names| ==> CommitsOf(trunk, s', history, names[i], |line|) != []
  }

  /** On a linear history the parts' commits, joined oldest part first, are exactly the commits the branch owned, none
      twice and none of the parts empty. */
  lemma ListingPartitions(trunk: string, history: History, line: seq<string>, s: Snapshot, b: string,
      names: seq<string>, points: seq<nat>)
    requires LinearSplit(trunk, history, line, s, b, names, points)
    ensures var p := Parts(history, s, b, names, points, false, |names|);
      p.Some? && Partitioned(trunk, history, line, s, b, names, p.value.now)
  {
    var cuts, parent := Cuts(history, s, b, points), Parent(s.parents, b);
    CutsAre(trunk, history, s, b, names, points);
    CutsOnLine(trunk, history, line, s, b, names, points);
    var p := PartsMade(history, s, b, names, points, false, cuts, |names|);
    PartsList(trunk, history, line, p.now, parent, cuts, names, points, |names|);
    WholeRange(trunk, history, line, s, b, names, points);
    forall i: nat | i < |names| ensures CommitsOf(trunk, p.now, history, names[i], |line|) != [] {
      assert Rises(line, points, cuts, i);
      PartLists(trunk, history, line, p.now, parent, cuts, names, points, i);
    }
  }

  lemma WholeRange(trunk: string, history: History, line: seq<string>, s: Snapshot, b: string, names: seq<string>,
      points: seq<nat>)
    requires LinearSplit(trunk, history, line, s, b, names, points)
    ensures CommitsOf(trunk, s, history, b, |line|) == Stretch(line, 0, |line| - 1)
    ensures Distinct(Stretch(line, 0, |line| - 1))
  {
    assert line[0] in line && names[|names| - 1] in names;
    RevListOnLine(history, line, 0, |line| - 1);
  }
}
