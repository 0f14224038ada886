/** Splitting a branch at some of its commits. */
module Split {
  import opened Wrappers
  import opened Names
  import opened Forest
  import opened StackGraph
  import opened Divergence
  import opened Engine

  // ---------- First-parent history ----------

  type History = map<string, string>

  /** The commit k first-parent steps before c. */
  function Back(history: History, c: string, k: nat): Option<string>
    decreases k
  {
    if k == 0 then Some(c) else if c in history then Back(history, history[c], k - 1) else None
  }

  // ---------- Where the cuts are ----------

  /** Names oldest first, points newest first as offsets from the tip, strictly ordered and each leading to a commit;
      the newest part keeps the name and the tip. */
  ghost predicate GoodSplit(trunk: string, history: History, s: Snapshot, b: string, names: seq<string>,
      points: seq<nat>) {
    && b in s.git.tips && Stored(s.revs, b) != ""
    && |names| == |points| > 0 && Distinct(names) && trunk !in names && names[|names| - 1] == b
    && points[0] == 0 && (forall i, j :: 0 <= i < j < |points| ==> points[i] < points[j])
    && forall i :: 0 <= i < |points| ==> LeadsToCommit(history, s.git.tips[b], points[i])
  }

  ghost predicate LeadsToCommit(history: History, head: string, k: nat) {
    Back(history, head, k).Some? && Back(history, head, k).value != ""
  }

  /** The commits between which the parts lie: the old divergence point, then the tip of each part, oldest first. */
  function Cuts(history: History, s: Snapshot, b: string, points: seq<nat>): (cuts: seq<string>)
    requires b in s.git.tips
    ensures |cuts| == |points| + 1 && cuts[0] == Stored(s.revs, b)
    ensures forall i :: 0 < i < |cuts| ==> cuts[i] == TipAt(history, s.git.tips[b], points[|cuts| - 1 - i])
  {
    [Stored(s.revs, b)] +
    seq(|points|, i requires 0 <= i < |points| => TipAt(history, s.git.tips[b], points[|points| - 1 - i]))
  }

  function TipAt(history: History, head: string, k: nat): string {
    match Back(history, head, k)
    case Some(c) => c
    case None => ""
  }

  ghost predicate AreCuts(history: History, s: Snapshot, b: string, names: seq<string>, points: seq<nat>,
      cuts: seq<string>)
    requires b in s.git.tips && |names| == |points|
  {
    |cuts| == |names| + 1 && cuts[0] == Stored(s.revs, b) && cuts[|names|] == s.git.tips[b] &&
    forall i: nat :: i < |names| ==> IsCut(history, s.git.tips[b], points, cuts, i)
  }

  /** The i-th cut after the divergence point is the tip of the i-th part, oldest first. */
  ghost predicate IsCut(history: History, head: string, points: seq<nat>, cuts: seq<string>, i: nat)
    requires |cuts| == |points| + 1 && i < |points|
  {
    Back(history, head, points[|points| - 1 - i]) == Some(cuts[i + 1])
  }

  lemma CutsAre(trunk: string, history: History, s: Snapshot, b: string, names: seq<string>, points: seq<nat>)
    requires GoodSplit(trunk, history, s, b, names, points)
    ensures AreCuts(history, s, b, names, points, Cuts(history, s, b, points)) && "" !in Cuts(history, s, b, points)
  {
    var cuts := Cuts(history, s, b, points);
    forall i: nat | i < |points| ensures IsCut(history, s.git.tips[b], points, cuts, i) && cuts[i + 1] != "" {
      assert LeadsToCommit(history, s.git.tips[b], points[|points| - 1 - i]);
    }
    assert IsCut(history, s.git.tips[b], points, cuts, |points| - 1);
  }

  // ---------- The split ----------

  /** Creates branch name at tip, tracked under parent from revision rev. */
  function MakePart(s: Snapshot, name: string, parent: string, rev: string, tip: string): Snapshot {
    Snapshot(s.git.(tips := s.git.tips[name := tip]), s.parents[name := parent], s.revs[name := rev])
  }

  /** The commit k steps before the tip of b as it stands, if there is one. */
  function Resolve(history: History, s: Snapshot, b: string, k: nat): Option<string> {
    if b in s.git.tips then Back(history, s.git.tips[b], k) else None
  }

  datatype Progress = Progress(now: Snapshot, lastName: string, lastRevision: string)

  /** The state after the first n parts, or None once an offset does not resolve. Offsets are resolved from the ref of
      the branch being split as it then stands. */
  function Parts(history: History, s: Snapshot, b: string, names: seq<string>, points: seq<nat>, asSibling: bool,
      n: nat): Option<Progress>
    requires |names| == |points| && n <= |names|
    decreases n
  {
    var parent, rev := Parent(s.parents, b), Stored(s.revs, b);
    if n == 0 then Some(Progress(s, parent, rev))
    else
      match Parts(history, s, b, names, points, asSibling, n - 1)
      case None => None
      case Some(p) =>
        match Resolve(history, p.now, b, points[|points| - n])
        case None => None
        case Some(tip) =>
          Some(Progress(
            MakePart(p.now, names[n - 1],
              if asSibling then parent else p.lastName, if asSibling then rev else p.lastRevision, tip),
            names[n - 1], tip))
  }

  predicate SiblingsFit(branches: seq<string>, pm: ParentMap, trunk: string, parent: string, names: seq<string>) {
    parent == trunk || |(set c | c in branches && GraphParent(branches, pm, c) == parent) + Elems(names)| <= 1
  }

  /** The first k parts are tracked, and no other change was made to the metadata. */
  ghost predicate TrackedFirst(history: History, s: Snapshot, b: string, names: seq<string>, points: seq<nat>,
      asSibling: bool, k: nat, now: Snapshot)
    requires |names| == |points|
  {
    k <= |names| && Parts(history, s, b, names, points, asSibling, k).Some? &&
    var p := Parts(history, s, b, names, points, asSibling, k).value;
    now.parents == p.now.parents && now.revs == p.now.revs
  }

  /** Splits branch b; its name goes on as the newest part. Stops at the first part that cannot be made, with the parts
      made so far in place. Creating refs, writing metadata and the checkout at the end may fail. */
  method ApplySplitToCommits(eng: Engine, history: History, b: string, names: seq<string>, points: seq<nat>,
      asSibling: bool)
    returns (r: Outcome)
    requires names != [] && names[|names| - 1] == b
    requires b in eng.parents ==> b in eng.revs
    modifies eng`git, eng`parents, eng`revs, eng`currentBranch
    ensures |names| != |points| || b !in old(eng.parents) ==> r.Failed? && eng.Now() == old(eng.Now())
    ensures r == Failed(NotLinear) ==> eng.Now() == old(eng.Now())
    ensures |names| == |points| && b in old(eng.parents) ==>
      (r == Failed(NotLinear) <==>
        asSibling && eng.linearStacks &&
        !SiblingsFit(eng.branches, old(eng.parents), eng.trunk, old(eng.parents)[b], names))
    ensures |names| == |points| && Parts(history, old(eng.Now()), b, names, points, asSibling, |names|).None? ==>
      r.Failed?
    ensures r.Done? ==> |names| == |points| && b in old(eng.parents) && eng.currentBranch == b
    ensures r.Done? ==> Some(eng.Now()) == NowOf(Parts(history, old(eng.Now()), b, names, points, asSibling, |names|))
    ensures |names| == |points| ==>
      exists k: nat :: TrackedFirst(history, old(eng.Now()), b, names, points, asSibling, k, eng.Now())
    ensures eng.reliable && |names| == |points| && b in old(eng.parents) && r != Failed(NotLinear) ==>
      (r.Done? <==> Parts(history, old(eng.Now()), b, names, points, asSibling, |names|).Some?)
  {
    if |names| != |points| { return Failed(GitFailed); }
    assert TrackedFirst(history, eng.Now(), b, names, points, asSibling, 0, eng.Now());
    if b !in eng.parents { return Failed(NoDivergencePoint); }
    if asSibling && eng.linearStacks && !SiblingsFit(eng.branches, eng.parents, eng.trunk, eng.parents[b], names) {
      return Failed(NotLinear);
    }
    ghost var s := eng.Now();
    var ok := MakeParts(eng, history, b, names, points, asSibling);
    if !ok { return Failed(GitFailed); }
    ghost var k: nat :| TrackedFirst(history, s, b, names, points, asSibling, k, eng.Now());
    eng.currentBranch := b;
    assert TrackedFirst(history, s, b, names, points, asSibling, k, eng.Now());
    if !eng.reliable { if * { return Failed(GitFailed); } }
    return Done;
  }

  /** Creates one part at an offset from the tip of b and tracks it. An offset that does not resolve, or a ref that
      cannot be created, changes nothing; metadata that cannot be written leaves the ref created. */
  method CreatePart(eng: Engine, history: History, b: string, name: string, parent: string, rev: string, offset: nat)
    returns (revision: Option<string>)
    modifies eng`git, eng`parents, eng`revs
    ensures revision.Some? ==>
      revision == Resolve(history, old(eng.Now()), b, offset) &&
      eng.Now() == MakePart(old(eng.Now()), name, parent, rev, revision.value)
    ensures revision.None? ==> eng.parents == old(eng.parents) && eng.revs == old(eng.revs)
    ensures eng.reliable ==> revision == Resolve(history, old(eng.Now()), b, offset)
    ensures Resolve(history, old(eng.Now()), b, offset).None? ==> eng.Now() == old(eng.Now())
  {
    revision := Resolve(history, eng.Now(), b, offset);
    if revision.None? { return; }
    if !eng.reliable { if * { return None; } }
    eng.git := eng.git.(tips := eng.git.tips[name := revision.value]);
    if !eng.reliable { if * { return None; } }
    eng.parents, eng.revs := eng.parents[name := parent], eng.revs[name := rev];
  }

  lemma PartsNext(history: History, s: Snapshot, b: string, names: seq<string>, points: seq<nat>, asSibling: bool,
      n: nat, p: Progress)
    requires |names| == |points| && n < |names| && Parts(history, s, b, names, points, asSibling, n) == Some(p)
    ensures var tip := Resolve(history, p.now, b, points[|points| - 1 - n]);
      var parent, rev :=
        if asSibling then Parent(s.parents, b) else p.lastName, if asSibling then Stored(s.revs, b) else p.lastRevision;
      Parts(history, s, b, names, points, asSibling, n + 1) ==
        if tip.None? then None
          else Some(Progress(MakePart(p.now, names[n], parent, rev, tip.value), names[n], tip.value))
  {
    assert |points| - 1 - n == |points| - (n + 1);
  }

  /** Once an offset does not resolve no later part is made. */
  lemma {:induction false} PartsStop(history: History, s: Snapshot, b: string, names: seq<string>, points: seq<nat>,
      asSibling: bool, i: nat, n: nat)
    requires |names| == |points| && i <= n <= |names| && Parts(history, s, b, names, points, asSibling, i).None?
    ensures Parts(history, s, b, names, points, asSibling, n).None?
  {
    if i < n { PartsStop(history, s, b, names, points, asSibling, i, n - 1); }
  }

  /** Makes the parts one after the other, oldest first. */
  method MakeParts(eng: Engine, history: History, b: string, names: seq<string>, points: seq<nat>, asSibling: bool)
    returns (ok: bool)
    requires |names| == |points| && b in eng.parents && b in eng.revs
    modifies eng`git, eng`parents, eng`revs
    ensures Parts(history, old(eng.Now()), b, names, points, asSibling, |names|).None? ==> !ok
    ensures eng.reliable ==> (ok <==> Parts(history, old(eng.Now()), b, names, points, asSibling, |names|).Some?)
    ensures ok ==> Some(eng.Now()) == NowOf(Parts(history, old(eng.Now()), b, names, points, asSibling, |names|))
    ensures exists k: nat :: TrackedFirst(history, old(eng.Now()), b, names, points, asSibling, k, eng.Now())
  {
    ghost var s := eng.Now();
    var parentName, parentRevision := eng.parents[b], eng.revs[b];
    var lastBranchName, lastBranchRevision := parentName, parentRevision;
    for i := 0 to |names|
      invariant Parts(history, s, b, names, points, asSibling, i) ==
        Some(Progress(eng.Now(), lastBranchName, lastBranchRevision))
    {
      PartsNext(history, s, b, names, points, asSibling, i, Progress(eng.Now(), lastBranchName, lastBranchRevision));
      var branchParentName, branchParentRevision := lastBranchName, lastBranchRevision;
      if asSibling { branchParentName, branchParentRevision := parentName, parentRevision; }
      var revision := CreatePart(eng, history, b, names[i], branchParentName, branchParentRevision,
        points[|points| - 1 - i]);
      if revision.None? {
        assert TrackedFirst(history, s, b, names, points, asSibling, i, eng.Now());
        if eng.reliable { PartsStop(history, s, b, names, points, asSibling, i + 1, |names|); }
        return false;
      }
      lastBranchName, lastBranchRevision := names[i], revision.value;
    }
    assert TrackedFirst(history, s, b, names, points, asSibling, |names|, eng.Now());
    return true;
  }

  function NowOf(p: Option<Progress>): Option<Snapshot> {
    match p
    case None => None
    case Some(q) => Some(q.now)
  }

  // ---------- What a split makes ----------

  function PartParent(parent: string, names: seq<string>, i: nat): string
    requires i <= |names|
  {
    if i == 0 then parent else names[i - 1]
  }

  /** What part i hangs from: its predecessor in a chain, and the old parent as a sibling. */
  function HangsFrom(parent: string, names: seq<string>, asSibling: bool, i: nat): string
    requires i <= |names|
  {
    if asSibling then parent else PartParent(parent, names, i)
  }

  /** Where part i starts: at its predecessor's tip in a chain, and where the branch did as a sibling. */
  function StartsAt(cuts: seq<string>, asSibling: bool, i: nat): string
    requires i < |cuts|
  {
    if asSibling then cuts[0] else cuts[i]
  }

  ghost predicate IsPart(s: Snapshot, parent: string, cuts: seq<string>, names: seq<string>, asSibling: bool, i: nat)
    requires |cuts| == |names| + 1 && i < |names|
  {
    Parent(s.parents, names[i]) == HangsFrom(parent, names, asSibling, i) &&
    Stored(s.revs, names[i]) == StartsAt(cuts, asSibling, i) &&
    names[i] in s.git.tips && s.git.tips[names[i]] == cuts[i + 1]
  }

  ghost predicate AreParts(s: Snapshot, parent: string, cuts: seq<string>, names: seq<string>, asSibling: bool, n: nat)
    requires |cuts| == |names| + 1 && n <= |names|
  {
    forall i: nat :: i < n ==> IsPart(s, parent, cuts, names, asSibling, i)
  }

  /** Branch x is the same in both. */
  ghost predicate SameBranch(s: Snapshot, s': Snapshot, x: string) {
    Parent(s.parents, x) == Parent(s'.parents, x) && (x in s.parents <==> x in s'.parents) &&
    Stored(s.revs, x) == Stored(s'.revs, x) &&
    (x in s.git.tips <==> x in s'.git.tips) && (x in s.git.tips ==> s.git.tips[x] == s'.git.tips[x])
  }

  ghost predicate SameElsewhere(s: Snapshot, s': Snapshot, names: seq<string>) {
    forall x :: x !in names ==> SameBranch(s, s', x)
  }

  lemma OneMorePart(s: Snapshot, before: Snapshot, parent: string, cuts: seq<string>, names: seq<string>,
      asSibling: bool, n: nat, after: Snapshot)
    requires |cuts| == |names| + 1 && n < |names| && Distinct(names)
    requires AreParts(before, parent, cuts, names, asSibling, n) && SameElsewhere(s, before, names)
    requires after ==
      MakePart(before, names[n], HangsFrom(parent, names, asSibling, n), StartsAt(cuts, asSibling, n), cuts[n + 1])
    ensures AreParts(after, parent, cuts, names, asSibling, n + 1) && SameElsewhere(s, after, names)
  {
    forall i: nat | i < n + 1 ensures IsPart(after, parent, cuts, names, asSibling, i) {
      if i < n { assert IsPart(before, parent, cuts, names, asSibling, i) && names[i] != names[n]; }
    }
    forall x | x !in names ensures SameBranch(s, after, x) {
      assert SameBranch(s, before, x) && x != names[n];
    }
  }

  /** What holds of a split that is n parts on. */
  ghost predicate PartsOn(s: Snapshot, b: string, names: seq<string>, asSibling: bool, cuts: seq<string>, n: nat,
      p: Progress)
    requires b in s.git.tips && |cuts| == |names| + 1 && n <= |names|
  {
    b in p.now.git.tips && p.now.git.tips[b] == s.git.tips[b] && p.now.git.reaches == s.git.reaches &&
    p.lastName == PartParent(Parent(s.parents, b), names, n) && p.lastRevision == cuts[n] &&
    AreParts(p.now, Parent(s.parents, b), cuts, names, asSibling, n) && SameElsewhere(s, p.now, names)
  }

  lemma PartStep(history: History, s: Snapshot, b: string, names: seq<string>, points: seq<nat>, asSibling: bool,
      cuts: seq<string>, n: nat, q: Progress)
    returns (p: Progress)
    requires b in s.git.tips && |names| == |points| && AreCuts(history, s, b, names, points, cuts) && n < |names|
    requires Parts(history, s, b, names, points, asSibling, n) == Some(q)
    requires b in q.now.git.tips && q.now.git.tips[b] == s.git.tips[b]
    requires q.lastName == PartParent(Parent(s.parents, b), names, n) && q.lastRevision == cuts[n]
    ensures p == Progress(MakePart(q.now, names[n], HangsFrom(Parent(s.parents, b), names, asSibling, n),
      StartsAt(cuts, asSibling, n), cuts[n + 1]), names[n], cuts[n + 1])
    ensures Parts(history, s, b, names, points, asSibling, n + 1) == Some(p)
  {
    assert IsCut(history, s.git.tips[b], points, cuts, n);
    PartsNext(history, s, b, names, points, asSibling, n, q);
    p := Parts(history, s, b, names, points, asSibling, n + 1).value;
  }

  lemma PartAdded(history: History, s: Snapshot, b: string, names: seq<string>, points: seq<nat>, asSibling: bool,
      cuts: seq<string>, n: nat, q: Progress)
    returns (p: Progress)
    requires b in s.git.tips && |names| == |points| && AreCuts(history, s, b, names, points, cuts) && n < |names|
    requires Distinct(names) && names[|names| - 1] == b
    requires Parts(history, s, b, names, points, asSibling, n) == Some(q) && PartsOn(s, b, names, asSibling, cuts, n, q)
    ensures Parts(history, s, b, names, points, asSibling, n + 1) == Some(p)
    ensures PartsOn(s, b, names, asSibling, cuts, n + 1, p)
  {
    p := PartStep(history, s, b, names, points, asSibling, cuts, n, q);
    OneMorePart(s, q.now, Parent(s.parents, b), cuts, names, asSibling, n, p.now);
    if names[n] == b { assert n + 1 == |names|; }
  }

  /** A split at commits that exist succeeds unless a write fails; its parts are made at those commits, and nothing else
      changes. */
  lemma {:induction false} PartsMade(history: History, s: Snapshot, b: string, names: seq<string>, points: seq<nat>,
      asSibling: bool, cuts: seq<string>, n: nat)
    returns (p: Progress)
    requires b in s.git.tips && |names| == |points| && AreCuts(history, s, b, names, points, cuts)
    requires n <= |names| && Distinct(names) && (names != [] ==> names[|names| - 1] == b)
    ensures Parts(history, s, b, names, points, asSibling, n) == Some(p)
    ensures PartsOn(s, b, names, asSibling, cuts, n, p)
  {
    p := Progress(s, Parent(s.parents, b), Stored(s.revs, b));
    for i := 0 to n
      invariant Parts(history, s, b, names, points, asSibling, i) == Some(p)
      invariant PartsOn(s, b, names, asSibling, cuts, i, p)
    {
      p := PartAdded(history, s, b, names, points, asSibling, cuts, i, p);
    }
  }
}
