/** Choosing, layer by layer, the planned branches that may really be deleted. */
module DeletionSelect {
  import opened Names
  import opened Forest
  import opened DeletionPlan

  /** Planned branches are counted as blockers of their parents pp. A branch may report another parent than that, if it
      has no planned parent in pp and nothing is counted under the parent it reports. */
  ghost predicate Counted(pp: ParentMap, parentName: string -> string) {
    forall c :: c in pp ==> pp[c] == parentName(c) || (pp[c] !in pp && ChildrenIn(pp, parentName(c)) == {})
  }

  /** b and every planned descendant of b may be deleted. */
  ghost predicate PassesBelow(pp: ParentMap, canDelete: string -> bool, b: string) {
    forall d, n: nat :: d in pp && Climb(pp, d, n) == b ==> canDelete(d)
  }

  /** Passing is passing oneself and having only passing planned children. */
  lemma PassesLocally(pp: ParentMap, canDelete: string -> bool, b: string)
    requires b in pp && "" !in pp
    ensures PassesBelow(pp, canDelete, b) <==>
      canDelete(b) && forall c :: c in pp && pp[c] == b ==> PassesBelow(pp, canDelete, c)
  {
    if PassesBelow(pp, canDelete, b) {
      assert Climb(pp, b, 0) == b;
      forall c, d, n: nat | c in pp && pp[c] == b && d in pp && Climb(pp, d, n) == c ensures canDelete(d) {
        ClimbStep(pp, d, n);
        assert Climb(pp, d, n + 1) == b;
      }
    }
    if canDelete(b) && forall c :: c in pp && pp[c] == b ==> PassesBelow(pp, canDelete, c) {
      forall d, n: nat | d in pp && Climb(pp, d, n) == b ensures canDelete(d) {
        if n > 0 {
          var c := Climb(pp, d, n - 1);
          ClimbStep(pp, d, n - 1);
          assert c in pp && pp[c] == b;
        }
      }
    }
  }

  ghost function ChildrenIn(pp: ParentMap, b: string): set<string> {
    set c | c in pp && pp[c] == b
  }

  /** Parents rank below their children, so the planned branches hang in layers. */
  ghost predicate Layered(pp: ParentMap, rank: Rank) {
    pp.Keys <= rank.Keys && forall c :: c in pp && pp[c] in pp ==> rank[pp[c]] < rank[c]
  }

  /** x is held back by its planned child c. */
  ghost predicate HeldBy(pp: ParentMap, open: set<string>, x: string, c: string) {
    c in open && c in pp && pp[c] == x
  }

  /** A branch left blocked has a planned descendant that was rejected. */
  lemma {:induction false} BlockedFails(pp: ParentMap, rank: Rank, canDelete: string -> bool, left: set<string>,
      rejected: set<string>, b: string)
    requires "" !in pp && Layered(pp, rank) && left <= pp.Keys && b in left
    requires forall x :: x in rejected ==> !PassesBelow(pp, canDelete, x)
    requires forall x :: x in left ==> exists c :: HeldBy(pp, left + rejected, x, c)
    ensures !PassesBelow(pp, canDelete, b)
    decreases Above(pp, rank, b)
  {
    var c :| HeldBy(pp, left + rejected, b, c);
    if c !in rejected {
      AboveShrinks(pp, rank, b, c);
      BlockedFails(pp, rank, canDelete, left, rejected, c);
    }
    PassesLocally(pp, canDelete, b);
  }

  /** Every planned child of the i-th name of q comes before it and is in done. */
  ghost predicate ChildrenFirst(pp: ParentMap, q: seq<string>, done: set<string>) {
    forall i :: 0 <= i < |q| ==> forall c :: c in pp && pp[c] == q[i] ==> c in q[..i] && c in done
  }

  /** Half-way: what is selected passes, what was rejected fails, and children come first. */
  ghost predicate Chosen(pp: ParentMap, canDelete: string -> bool, selected: seq<string>, asked: seq<string>) {
    && Distinct(asked) && Distinct(selected) && Elems(selected) <= Elems(asked) <= pp.Keys
    && (forall b :: b in asked ==> (b in selected <==> PassesBelow(pp, canDelete, b)))
    && ChildrenFirst(pp, asked, Elems(selected)) && ChildrenFirst(pp, selected, Elems(selected))
  }

  /** What is left of the plan: the branches not asked about, blocked by their unselected children. */
  ghost predicate Remains(pp: ParentMap, entries: Entries, selected: set<string>, asked: set<string>) {
    entries.Keys == pp.Keys - asked && forall b :: b in entries ==> entries[b].blockers == ChildrenIn(pp, b) - selected
  }

  ghost predicate Progress(pp: ParentMap, canDelete: string -> bool, entries: Entries, selected: seq<string>,
      asked: seq<string>) {
    Chosen(pp, canDelete, selected, asked) && Remains(pp, entries, Elems(selected), Elems(asked))
  }

  /** A plan whose blockers are its planned children. */
  ghost predicate Consistent(entries: Entries, pp: ParentMap) {
    entries.Keys == pp.Keys && "" !in pp && forall b :: b in entries ==> entries[b].blockers == ChildrenIn(pp, b)
  }

  // ---------- One layer ----------

  function Passing(q: seq<string>, canDelete: string -> bool): (r: seq<string>)
    ensures forall x :: x in r <==> x in q && canDelete(x)
  {
    if q == [] then []
    else
      var x := q[|q| - 1];
      Passing(q[..|q| - 1], canDelete) + if canDelete(x) then [x] else []
  }

  lemma {:induction false} PassingSorted(q: seq<string>, canDelete: string -> bool)
    requires Sorted(q)
    ensures Sorted(Passing(q, canDelete))
  {
    if q != [] {
      var init := q[..|q| - 1];
      PassingSorted(init, canDelete);
      forall x | x in Passing(init, canDelete) ensures Less(x, q[|q| - 1]) {
        assert x in init;
      }
      assert forall i :: 0 <= i < |Passing(init, canDelete)| ==>
        Passing(init, canDelete)[i] in Passing(init, canDelete);
    }
  }

  /** The unblocked branches of a plan, in order. */
  method Candidates(entries: Entries) returns (candidates: seq<string>)
    ensures Sorted(candidates) && forall b :: b in candidates <==> IsCandidate(entries, b)
  {
    var s := set b | b in entries && entries[b].blockers == {};
    var any := ListAny(s);
    SortSorts(any);
    candidates := Sort(any);
    assert forall b :: b in candidates <==> b in Elems(candidates);
  }

  predicate IsCandidate(entries: Entries, b: string) {
    b in entries && entries[b].blockers == {}
  }

  function Rejected(q: seq<string>, canDelete: string -> bool): set<string> {
    set x | x in q && !canDelete(x)
  }

  /** Asks about every candidate once; a rejected one leaves the plan but goes on blocking its parent. */
  method AskLayer(plan: DeletionPlan, candidates: seq<string>, canDelete: string -> bool) returns (layer: seq<string>)
    modifies plan
    ensures layer == Passing(candidates, canDelete)
    ensures plan.branches == old(plan.branches) - Rejected(candidates, canDelete)
  {
    layer := [];
    for i := 0 to |candidates|
      invariant layer == Passing(candidates[..i], canDelete)
      invariant plan.branches == old(plan.branches) - Rejected(candidates[..i], canDelete)
    {
      var branch := candidates[i];
      AskedOneMore(candidates, canDelete, i);
      if canDelete(branch) {
        layer := layer + [branch];
      } else {
        plan.branches := plan.branches - {branch};
      }
    }
    assert candidates[..|candidates|] == candidates;
  }

  lemma AskedOneMore(q: seq<string>, canDelete: string -> bool, i: nat)
    requires i < |q|
    ensures Rejected(q[..i + 1], canDelete) == Rejected(q[..i], canDelete) + if canDelete(q[i]) then {} else {q[i]}
    ensures Passing(q[..i + 1], canDelete) == Passing(q[..i], canDelete) + if canDelete(q[i]) then [q[i]] else []
  {
    assert q[..i + 1][..i] == q[..i];
    assert q[..i + 1] == q[..i] + [q[i]];
  }

  function Released(layer: seq<string>, parentName: string -> string, b: string): set<string> {
    set c | c in layer && parentName(c) == b
  }

  /** Takes a selected layer out of the plan and unblocks its parents. */
  method ReleaseLayer(plan: DeletionPlan, layer: seq<string>, parentName: string -> string)
    modifies plan
    ensures plan.branches.Keys == old(plan.branches).Keys - Elems(layer)
    ensures forall b :: b in plan.branches ==>
      plan.branches[b].blockers == old(plan.branches)[b].blockers - Released(layer, parentName, b)
  {
    for i := 0 to |layer|
      invariant plan.branches.Keys == old(plan.branches).Keys - Elems(layer[..i])
      invariant forall b :: b in plan.branches ==>
        plan.branches[b].blockers == old(plan.branches)[b].blockers - Released(layer[..i], parentName, b)
    {
      assert layer[..i + 1] == layer[..i] + [layer[i]];
      plan.branches := plan.branches - {layer[i]};
      plan.RemoveBlocker(parentName(layer[i]), layer[i]);
    }
    assert layer[..|layer|] == layer;
  }

  lemma CandidatePasses(pp: ParentMap, canDelete: string -> bool, entries: Entries, selected: seq<string>,
      asked: seq<string>, b: string)
    requires "" !in pp && Progress(pp, canDelete, entries, selected, asked) && IsCandidate(entries, b)
    ensures b in pp && b !in asked && b !in selected && ChildrenIn(pp, b) <= Elems(selected)
    ensures PassesBelow(pp, canDelete, b) <==> canDelete(b)
  {
    assert b !in Elems(asked) && b !in Elems(selected);
    forall c | c in ChildrenIn(pp, b) ensures c in Elems(selected) {
      assert c !in ChildrenIn(pp, b) - Elems(selected);
    }
    PassesLocally(pp, canDelete, b);
    forall c | c in pp && pp[c] == b ensures PassesBelow(pp, canDelete, c) {
      assert c in ChildrenIn(pp, b) && c in Elems(selected) && c in Elems(asked);
    }
  }

  /** Releasing a layer leaves each branch blocked by its planned children not selected so far. */
  lemma LayerReleased(pp: ParentMap, parentName: string -> string, entries: Entries, selected: set<string>,
      asked: set<string>, candidates: set<string>, layer: seq<string>, entries': Entries)
    requires Counted(pp, parentName) && Remains(pp, entries, selected, asked)
    requires Elems(layer) <= pp.Keys && entries'.Keys == entries.Keys - candidates
    requires forall b :: b in entries' ==> entries'[b].blockers == entries[b].blockers - Released(layer, parentName, b)
    ensures Remains(pp, entries', selected + Elems(layer), asked + candidates)
  {
    forall b | b in entries' ensures entries'[b].blockers == ChildrenIn(pp, b) - (selected + Elems(layer)) {
      forall c | c in ChildrenIn(pp, b)
        ensures c in Released(layer, parentName, b) <==> c in Elems(layer)
      {
        assert pp[c] == b && b in pp;
      }
    }
  }

  /** Asking a layer of branches all of whose planned children are selected. */
  lemma LayerChosen(pp: ParentMap, canDelete: string -> bool, selected: seq<string>, asked: seq<string>,
      candidates: seq<string>, layer: seq<string>)
    requires Chosen(pp, canDelete, selected, asked) && Sorted(candidates) && layer == Passing(candidates, canDelete)
    requires forall b :: b in candidates ==> b in pp && b !in asked && ChildrenIn(pp, b) <= Elems(selected)
    requires forall b :: b in candidates ==> (PassesBelow(pp, canDelete, b) <==> canDelete(b))
    ensures Chosen(pp, canDelete, selected + layer, asked + candidates)
    ensures Elems(selected + layer) == Elems(selected) + Elems(layer)
    ensures Elems(asked + candidates) == Elems(asked) + Elems(candidates) && Elems(layer) <= pp.Keys
  {
    SortedDistinct(candidates);
    DistinctAppend(asked, candidates);
    PassingSorted(candidates, canDelete);
    SortedDistinct(layer);
    assert forall b :: b in selected ==> b in Elems(asked);
    DistinctAppend(selected, layer);
    FirstAppend(pp, asked, candidates, Elems(selected), Elems(selected + layer));
    FirstAppend(pp, selected, layer, Elems(selected), Elems(selected + layer));
  }

  /** A branch that releasing a layer unblocks has a planned child in it. */
  lemma ChildReleased(pp: ParentMap, parentName: string -> string, layer: seq<string>, b: string, blockers: set<string>)
    requires blockers != {} && blockers <= ChildrenIn(pp, b) && forall c :: c in layer ==> c in pp
    requires blockers - Released(layer, parentName, b) == {}
    ensures HasChildIn(pp, b, layer)
  {
    var c :| c in blockers;
    assert c !in blockers - Released(layer, parentName, b);
  }

  /** A layer all of whose planned children are selected keeps the progress invariant. */
  lemma LayerProgress(pp: ParentMap, parentName: string -> string, canDelete: string -> bool, entries: Entries,
      selected: seq<string>, asked: seq<string>, candidates: seq<string>, layer: seq<string>, entries': Entries)
    requires Counted(pp, parentName) && "" !in pp && Progress(pp, canDelete, entries, selected, asked)
    requires Sorted(candidates) && forall b :: b in candidates <==> IsCandidate(entries, b)
    requires layer == Passing(candidates, canDelete) && entries'.Keys == entries.Keys - Elems(candidates)
    requires forall b :: b in entries' ==> entries'[b].blockers == entries[b].blockers - Released(layer, parentName, b)
    ensures Progress(pp, canDelete, entries', selected + layer, asked + candidates)
    ensures LayerFits(pp, entries', selected, layer)
  {
    forall b | IsCandidate(entries', b) ensures HasChildIn(pp, b, layer) {
      assert b !in Elems(candidates) && entries[b].blockers != {};
      ChildReleased(pp, parentName, layer, b, entries[b].blockers);
    }
    forall b | b in candidates
      ensures b in pp && b !in asked && ChildrenIn(pp, b) <= Elems(selected)
      ensures PassesBelow(pp, canDelete, b) <==> canDelete(b)
    {
      CandidatePasses(pp, canDelete, entries, selected, asked, b);
    }
    LayerChosen(pp, canDelete, selected, asked, candidates, layer);
    LayerReleased(pp, parentName, entries, Elems(selected), Elems(asked), Elems(candidates), layer, entries');
  }

  lemma FirstAppend(pp: ParentMap, q: seq<string>, more: seq<string>, done: set<string>, done': set<string>)
    requires ChildrenFirst(pp, q, done) && done <= done' && done <= Elems(q)
    requires forall b :: b in more ==> ChildrenIn(pp, b) <= done
    ensures ChildrenFirst(pp, q + more, done')
  {
    forall i, c | 0 <= i < |q + more| && c in pp && pp[c] == (q + more)[i] ensures c in (q + more)[..i] && c in done' {
      if i < |q| {
        assert (q + more)[..i] == q[..i];
      } else {
        assert (q + more)[i] == more[i - |q|] && (q + more)[..i] == q + more[..i - |q|];
        assert c in ChildrenIn(pp, more[i - |q|]);
        assert c in Elems(q);
      }
    }
  }

  ghost predicate AllBlocked(entries: Entries) {
    forall b :: b in entries ==> entries[b].blockers != {}
  }

  /** A layer fits below what is selected: its planned children are, and what is unblocked next has one in it. */
  ghost predicate LayerFits(pp: ParentMap, entries: Entries, selected: seq<string>, layer: seq<string>) {
    (forall b :: b in layer ==> b in pp && ChildrenIn(pp, b) <= Elems(selected)) &&
    forall b :: IsCandidate(entries, b) ==> HasChildIn(pp, b, layer)
  }

  /** Works off the branches that nothing blocks. */
  method SelectLayer(plan: DeletionPlan, canDelete: string -> bool, parentName: string -> string,
      ghost pp: ParentMap, ghost selected: seq<string>, ghost asked: seq<string>)
    returns (candidates: seq<string>, layer: seq<string>)
    modifies plan
    ensures Counted(pp, parentName) && "" !in pp && old(Progress(pp, canDelete, plan.branches, selected, asked)) ==>
      Progress(pp, canDelete, plan.branches, selected + layer, asked + candidates) &&
      LayerFits(pp, plan.branches, selected, layer)
    ensures plan.branches.Keys == old(plan.branches).Keys - Elems(candidates) && Elems(layer) <= Elems(candidates)
    ensures forall b :: b in layer ==> IsCandidate(old(plan.branches), b)
    ensures layer == [] ==> AllBlocked(plan.branches)
    ensures Sorted(layer) && forall b :: b in layer ==> b in old(plan.branches) && canDelete(b)
  {
    candidates := Candidates(plan.branches);
    ghost var entries := plan.branches;
    layer := AskLayer(plan, candidates, canDelete);
    ReleaseLayer(plan, layer, parentName);
    assert plan.branches.Keys == entries.Keys - Elems(candidates);
    PassingSorted(candidates, canDelete);
    if Counted(pp, parentName) && "" !in pp && Progress(pp, canDelete, entries, selected, asked) {
      LayerProgress(pp, parentName, canDelete, entries, selected, asked, candidates, layer, plan.branches);
    }
    if layer == [] {
      forall b | b in plan.branches ensures plan.branches[b].blockers != {} {
        assert !IsCandidate(entries, b) && Released(layer, parentName, b) == {};
      }
    }
  }

  // ---------- The order of the selection ----------

  function Joined(layers: seq<seq<string>>): seq<string> {
    if layers == [] then [] else Joined(layers[..|layers| - 1]) + layers[|layers| - 1]
  }

  ghost predicate HasChildIn(pp: ParentMap, b: string, layer: seq<string>) {
    exists c :: c in layer && c in pp && pp[c] == b
  }

  /** Layer k holds branches, in order of name, whose planned children are all in earlier layers, one in the last. */
  ghost predicate IsLayer(pp: ParentMap, layers: seq<seq<string>>, k: nat)
    requires k < |layers|
  {
    layers[k] != [] && Sorted(layers[k]) &&
    (forall b :: b in layers[k] ==> ChildrenIn(pp, b) <= Elems(Joined(layers[..k]))) &&
    (k > 0 ==> forall b :: b in layers[k] ==> HasChildIn(pp, b, layers[k - 1]))
  }

  ghost predicate InLayers(pp: ParentMap, layers: seq<seq<string>>) {
    forall k: nat :: k < |layers| ==> IsLayer(pp, layers, k)
  }

  lemma LayersAppend(pp: ParentMap, layers: seq<seq<string>>, layer: seq<string>)
    requires InLayers(pp, layers) && layer != [] && Sorted(layer)
    requires forall b :: b in layer ==> ChildrenIn(pp, b) <= Elems(Joined(layers))
    requires layers != [] ==> forall b :: b in layer ==> HasChildIn(pp, b, layers[|layers| - 1])
    ensures InLayers(pp, layers + [layer]) && Joined(layers + [layer]) == Joined(layers) + layer
  {
    var all := layers + [layer];
    forall k: nat | k < |all| ensures IsLayer(pp, all, k) {
      assert all[..k] == layers[..k];
      if k < |layers| { assert IsLayer(pp, layers, k); } else { assert layers[..k] == layers; }
    }
    assert all[..|layers|] == layers;
  }

  lemma {:induction false} InSomeLayer(layers: seq<seq<string>>, b: string) returns (k: nat)
    requires b in Joined(layers)
    ensures k < |layers| && b in layers[k]
  {
    var n := |layers| - 1;
    if b in layers[n] { k := n; } else { k := InSomeLayer(layers[..n], b); }
  }

  /** What is in a layer is in the list, and in no earlier layer when nothing is listed twice. */
  lemma {:induction false} LayersApart(layers: seq<seq<string>>, k: nat, j: nat, b: string)
    requires Distinct(Joined(layers)) && k <= j < |layers| && b in layers[j]
    ensures b in Joined(layers) && b !in Joined(layers[..k])
  {
    var n := |layers| - 1;
    var init, last := Joined(layers[..n]), layers[n];
    assert forall i :: 0 <= i < |init| ==> init[i] == Joined(layers)[i];
    assert forall i :: 0 <= i < |last| ==> last[i] == Joined(layers)[|init| + i];
    if j < n {
      assert layers[..n][..k] == layers[..k];
      LayersApart(layers[..n], k, j, b);
    } else if b in Joined(layers[..k]) {
      assert layers[..n][..k] == layers[..k];
      JoinedGrows(layers[..n], k, b);
    }
  }

  lemma {:induction false} JoinedGrows(layers: seq<seq<string>>, k: nat, b: string)
    requires k <= |layers| && b in Joined(layers[..k])
    ensures b in Joined(layers)
  {
    var n := |layers| - 1;
    if k == |layers| {
      assert layers[..k] == layers;
    } else {
      assert layers[..n][..k] == layers[..k];
      JoinedGrows(layers[..n], k, b);
    }
  }

  /** With the same layers before it, layer k of one list lies in layer k of any other with the same branches. */
  lemma LayerWithin(pp: ParentMap, layers: seq<seq<string>>, layers': seq<seq<string>>, k: nat, b: string)
    requires InLayers(pp, layers) && InLayers(pp, layers') && Distinct(Joined(layers)) && Distinct(Joined(layers'))
    requires Elems(Joined(layers)) == Elems(Joined(layers')) && k < |layers| && b in layers[k]
    requires k <= |layers'| && layers[..k] == layers'[..k]
    ensures k < |layers'| && b in layers'[k]
  {
    LayersApart(layers, k, k, b);
    assert b in Elems(Joined(layers'));
    var j := InSomeLayer(layers', b);
    if j < k {
      assert layers[j] == layers[..k][j] == layers'[..k][j] == layers'[j];
      assert j + 1 <= k && layers[..k][j] == layers[j];
      LayersUpTo(layers, k, j, b);
    } else if j > k {
      assert IsLayer(pp, layers, k) && IsLayer(pp, layers', j);
      var c :| c in layers'[j - 1] && c in pp && pp[c] == b;
      assert c in ChildrenIn(pp, b);
      LayersApart(layers', k, j - 1, c);
    }
  }

  lemma {:induction false} LayersUpTo(layers: seq<seq<string>>, k: nat, j: nat, b: string)
    requires j < k <= |layers| && b in layers[j]
    ensures b in Joined(layers[..k])
  {
    assert layers[..k][..k - 1] == layers[..k - 1];
    if j < k - 1 { LayersUpTo(layers, k - 1, j, b); }
  }

  /** The layers are determined by the branches in them. */
  lemma {:induction false} LayersUnique(pp: ParentMap, layers: seq<seq<string>>, layers': seq<seq<string>>, k: nat)
    requires InLayers(pp, layers) && InLayers(pp, layers') && Distinct(Joined(layers)) && Distinct(Joined(layers'))
    requires Elems(Joined(layers)) == Elems(Joined(layers')) && k <= |layers|
    ensures k <= |layers'| && layers[..k] == layers'[..k]
  {
    if k > 0 {
      LayersUnique(pp, layers, layers', k - 1);
      assert IsLayer(pp, layers, k - 1);
      var layer := layers[k - 1];
      LayerWithin(pp, layers, layers', k - 1, layer[0]);
      assert IsLayer(pp, layers', k - 1);
      var layer' := layers'[k - 1];
      forall b | b in layer ensures b in layer' { LayerWithin(pp, layers, layers', k - 1, b); }
      forall b | b in layer' ensures b in layer { LayerWithin(pp, layers', layers, k - 1, b); }
      assert Elems(layer) == Elems(layer');
      SortedListUnique(layer, layer');
      assert layers[..k] == layers[..k - 1] + [layers[k - 1]] && layers'[..k] == layers'[..k - 1] + [layers'[k - 1]];
    }
  }

  /** There is one selection in layers: what is selected, and in which order, does not depend on the order in which the
      plan's map is gone through. */
  lemma SelectionUnique(pp: ParentMap, canDelete: string -> bool, layers: seq<seq<string>>, layers': seq<seq<string>>)
    requires IsSelection(pp, canDelete, Joined(layers)) && IsSelection(pp, canDelete, Joined(layers'))
    requires InLayers(pp, layers) && InLayers(pp, layers')
    ensures layers == layers'
  {
    LayersUnique(pp, layers, layers', |layers|);
    LayersUnique(pp, layers', layers, |layers'|);
  }

  // ---------- The selection ----------

  /** Selects exactly the planned branches that pass together with all their planned descendants, layer by layer, each
      in order of name. Each branch is asked about at most once, and only when all its planned children are selected. A
      plan that is not one of the forest is worked off too; what is selected then is planned and may be deleted. */
  method SelectBranchesForDeletion(plan: DeletionPlan, canDelete: string -> bool, parentName: string -> string,
      ghost pp: ParentMap, ghost rank: Rank)
    returns (selected: seq<string>, ghost asked: seq<string>, ghost layers: seq<seq<string>>)
    modifies plan
    ensures old(Selectable(plan.branches, pp, parentName, rank)) ==>
      IsSelection(pp, canDelete, selected) && AskedInOrder(pp, selected, asked) &&
      selected == Joined(layers) && InLayers(pp, layers)
    ensures forall b :: b in selected ==> b in old(plan.branches) && canDelete(b)
  {
    ghost var fits := Selectable(plan.branches, pp, parentName, rank);
    selected, asked, layers := [], [], [];
    while true
      invariant fits ==> SoFar(pp, canDelete, plan.branches, selected, asked, layers)
      invariant plan.branches.Keys <= old(plan.branches).Keys
      invariant forall b :: b in selected ==> b in old(plan.branches) && canDelete(b)
      decreases plan.branches.Keys
    {
      ghost var entries := plan.branches;
      var candidates, layer := SelectLayer(plan, canDelete, parentName, pp, selected, asked);
      if layer == [] {
        selected, asked := selected + layer, asked + candidates;
        if fits { NothingLeft(pp, rank, canDelete, plan.branches, selected, asked); }
        return;
      }
      assert layer[0] in Elems(layer);
      if fits { OneMoreLayer(pp, canDelete, entries, plan.branches, selected, asked, candidates, layer, layers); }
      selected, asked, layers := selected + layer, asked + candidates, layers + [layer];
    }
  }

  /** Half-way: what is selected comes in layers, and what is unblocked now has a planned child in the last of them. */
  ghost predicate SoFar(pp: ParentMap, canDelete: string -> bool, entries: Entries, selected: seq<string>,
      asked: seq<string>, layers: seq<seq<string>>)
  {
    Progress(pp, canDelete, entries, selected, asked) && selected == Joined(layers) && InLayers(pp, layers) &&
    (layers != [] ==> forall b :: IsCandidate(entries, b) ==> HasChildIn(pp, b, layers[|layers| - 1]))
  }

  lemma OneMoreLayer(pp: ParentMap, canDelete: string -> bool, entries: Entries, entries': Entries,
      selected: seq<string>, asked: seq<string>, candidates: seq<string>, layer: seq<string>,
      layers: seq<seq<string>>)
    requires SoFar(pp, canDelete, entries, selected, asked, layers) && layer != [] && Sorted(layer)
    requires Progress(pp, canDelete, entries', selected + layer, asked + candidates)
    requires LayerFits(pp, entries', selected, layer) && forall b :: b in layer ==> IsCandidate(entries, b)
    ensures SoFar(pp, canDelete, entries', selected + layer, asked + candidates, layers + [layer])
  {
    LayersAppend(pp, layers, layer);
  }

  /** A plan blocks each branch by its children in pp, which hang in layers and are counted as the plan has them. */
  ghost predicate Selectable(entries: Entries, pp: ParentMap, parentName: string -> string, rank: Rank) {
    Consistent(entries, pp) && Counted(pp, parentName) && Layered(pp, rank)
  }

  /** q holds, children before parents, exactly the planned branches that pass with all their planned descendants. */
  ghost predicate IsSelection(pp: ParentMap, canDelete: string -> bool, q: seq<string>) {
    Distinct(q) && ChildrenFirst(pp, q, Elems(q)) && forall b :: b in q <==> b in pp && PassesBelow(pp, canDelete, b)
  }

  /** No branch is asked about twice, and none before all its planned children have been asked about and selected. */
  ghost predicate AskedInOrder(pp: ParentMap, selected: seq<string>, asked: seq<string>) {
    Distinct(asked) && ChildrenFirst(pp, asked, Elems(selected))
  }

  /** When every branch left is blocked, the selection is complete. */
  lemma NothingLeft(pp: ParentMap, rank: Rank, canDelete: string -> bool, entries: Entries, selected: seq<string>,
      asked: seq<string>)
    requires "" !in pp && Layered(pp, rank) && Progress(pp, canDelete, entries, selected, asked)
    requires AllBlocked(entries)
    ensures IsSelection(pp, canDelete, selected)
  {
    var rejected := Elems(asked) - Elems(selected);
    forall x | x in entries ensures exists c :: HeldBy(pp, entries.Keys + rejected, x, c) {
      var c :| c in entries[x].blockers;
      assert HeldBy(pp, entries.Keys + rejected, x, c);
    }
    forall b | b in entries ensures !PassesBelow(pp, canDelete, b) {
      BlockedFails(pp, rank, canDelete, entries.Keys, rejected, b);
    }
    forall b | b in selected ensures b in Elems(selected) {}
  }
}
