/** The in-memory cache of branch state and its children index. */
module StateCore {
  import opened Wrappers
  import opened Names
  import opened Forest
  import opened Metadata

  datatype BranchState = BranchState(parent: string, revision: string, scope: string, lockReason: string,
      branchType: string)

  type States = map<string, BranchState>
  type ChildrenMap = map<string, seq<string>>

  function OrEmpty(o: Option<string>): string {
    match o
    case Some(s) => s
    case None => ""
  }

  function StateOf(meta: Meta): BranchState {
    BranchState(OrEmpty(meta.parent), OrEmpty(meta.revision), OrEmpty(meta.scope), meta.lockReason, meta.branchType)
  }

  /** The record names a parent other than the branch itself. */
  predicate NamesParent(b: string, meta: Meta) {
    meta.parent.Some? && meta.parent.value != b
  }

  /** The states a full load builds from the records it could read. */
  function LoadedStates(trunk: string, allMeta: Store): States {
    map b | b in allMeta && b != trunk && NamesParent(b, allMeta[b]) :: StateOf(allMeta[b])
  }

  /** The states are those of the records gone through, all but those of todo. */
  ghost predicate LoadedSoFar(states: States, trunk: string, allMeta: Store, todo: set<string>) {
    (forall b :: b in states <==> b in allMeta && b !in todo && b != trunk && NamesParent(b, allMeta[b])) &&
    forall b :: b in states ==> states[b] == StateOf(allMeta[b])
  }

  // ---------- The children index ----------

  ghost function ChildSet(states: States, p: string): set<string> {
    set b | b in states && states[b].parent == p
  }

  /** The index lists s, in order, under p; an empty set has no entry. */
  ghost predicate ListedAt(children: ChildrenMap, p: string, s: set<string>) {
    if s == {} then p !in children else p in children && ListsSorted(children[p], s)
  }

  /** The children index is derived from the parents: each parent's children, sorted. */
  ghost predicate IsIndex(states: States, children: ChildrenMap) {
    forall p :: ListedAt(children, p, ChildSet(states, p))
  }

  /** The index is right under every name but the empty one. */
  ghost predicate IsIndexOffRoot(states: States, children: ChildrenMap) {
    forall p :: p != "" ==> ListedAt(children, p, ChildSet(states, p))
  }

  /** What merging records into a cache needs of it, and leaves: the index right under every name but the empty one,
      under which it may list anything but nothing. */
  ghost predicate Mergeable(states: States, children: ChildrenMap, trunk: string) {
    IsIndexOffRoot(states, children) && ("" in children ==> children[""] != []) && NoSelfParents(states) &&
    trunk !in states
  }

  ghost predicate NoSelfParents(states: States) {
    forall b :: b in states ==> states[b].parent != b
  }

  lemma IndexUnique(states: States, c1: ChildrenMap, c2: ChildrenMap)
    requires IsIndex(states, c1) && IsIndex(states, c2)
    ensures c1 == c2
  {
    forall p ensures p in c1 <==> p in c2
      ensures p in c1 ==> c1[p] == c2[p]
    {
      assert ListedAt(c1, p, ChildSet(states, p)) && ListedAt(c2, p, ChildSet(states, p));
      if p in c1 { SortedListUnique(c1[p], c2[p]); }
    }
  }

  function Remove(q: seq<string>, x: string): seq<string> {
    if q == [] then [] else if q[0] == x then q[1..] else [q[0]] + Remove(q[1..], x)
  }

  lemma {:induction false} RemoveSorted(q: seq<string>, x: string)
    requires Sorted(q)
    ensures ListsSorted(Remove(q, x), Elems(q) - {x})
  {
    if q != [] {
      TailElems(q);
      FirstElem(q);
      if q[0] != x {
        RemoveSorted(q[1..], x);
        var t := Remove(q[1..], x);
        forall k | 0 <= k < |t| ensures Less(q[0], t[k]) {
          assert t[k] in Elems(t);
          assert t[k] in q[1..];
        }
        assert Elems([q[0]] + t) == {q[0]} + Elems(t);
      }
    }
  }

  function DropEdge(children: ChildrenMap, p: string, c: string): ChildrenMap {
    if p !in children then children
    else
      var q := Remove(children[p], c);
      if q == [] then map k | k in children && k != p :: children[k] else children[p := q]
  }

  function AddEdge(children: ChildrenMap, p: string, c: string): ChildrenMap {
    var q := if p in children then children[p] else [];
    if c in q then children else children[p := Sort(q + [c])]
  }

  lemma DropEdgeLists(children: ChildrenMap, p: string, c: string, s: set<string>)
    requires ListedAt(children, p, s)
    ensures ListedAt(DropEdge(children, p, c), p, s - {c})
  {
    if p in children {
      RemoveSorted(children[p], c);
      FirstElem(Remove(children[p], c));
    }
  }

  lemma AddEdgeLists(children: ChildrenMap, p: string, c: string, s: set<string>)
    requires ListedAt(children, p, s)
    ensures ListedAt(AddEdge(children, p, c), p, s + {c})
  {
    var q := if p in children then children[p] else [];
    SortSorts(q + [c]);
    assert Elems(q + [c]) == Elems(q) + {c};
    assert c in q <==> c in Elems(q);
    assert c in q ==> s + {c} == s;
  }

  /** The index without the edge from b to its parent. */
  function Detached(states: States, children: ChildrenMap, b: string): ChildrenMap {
    if b in states && states[b].parent != "" then DropEdge(children, states[b].parent, b) else children
  }

  /** The index once b is under parent. */
  function Reattached(states: States, children: ChildrenMap, b: string, parent: string): ChildrenMap {
    var c := if b in states && states[b].parent == parent then children else Detached(states, children, b);
    if parent == "" then c else AddEdge(c, parent, b)
  }

  lemma DetachedLists(states: States, children: ChildrenMap, b: string, p: string)
    requires p != "" && ListedAt(children, p, ChildSet(states, p))
    ensures ListedAt(Detached(states, children, b), p, ChildSet(states, p) - {b})
  {
    DropEdgeLists(children, p, b, ChildSet(states, p));
    if b !in ChildSet(states, p) { assert ChildSet(states, p) - {b} == ChildSet(states, p); }
  }

  /** Moving one branch keeps the index right everywhere but under the empty name, which it leaves alone. */
  lemma ReattachedIndex(states: States, children: ChildrenMap, b: string, state: BranchState)
    requires IsIndexOffRoot(states, children)
    ensures var children' := Reattached(states, children, b, state.parent);
      IsIndexOffRoot(states[b := state], children') && SameUnderEmpty(children, children')
  {
    var states', children' := states[b := state], Reattached(states, children, b, state.parent);
    forall p | p != "" ensures ListedAt(children', p, ChildSet(states', p)) {
      assert ListedAt(children, p, ChildSet(states, p));
      DetachedLists(states, children, b, p);
      if p == state.parent {
        if b in states && states[b].parent == p {
          AddEdgeLists(children, p, b, ChildSet(states, p));
        } else {
          AddEdgeLists(Detached(states, children, b), p, b, ChildSet(states, p) - {b});
        }
        assert ChildSet(states', p) == ChildSet(states, p) + {b} == ChildSet(states, p) - {b} + {b};
      } else {
        assert ChildSet(states', p) == ChildSet(states, p) - {b};
      }
    }
  }

  ghost predicate SameUnderEmpty(c1: ChildrenMap, c2: ChildrenMap) {
    ("" in c1 <==> "" in c2) && ("" in c1 ==> c1[""] == c2[""])
  }

  /** Dropping a branch while keeping the list of its own children keeps the index right in the same way. */
  lemma DetachedIndex(states: States, children: ChildrenMap, b: string)
    requires IsIndexOffRoot(states, children)
    ensures IsIndexOffRoot(states - {b}, Detached(states, children, b)) &&
      SameUnderEmpty(children, Detached(states, children, b))
  {
    forall p | p != "" ensures ListedAt(Detached(states, children, b), p, ChildSet(states - {b}, p)) {
      assert ListedAt(children, p, ChildSet(states, p));
      DetachedLists(states, children, b, p);
      assert ChildSet(states - {b}, p) == ChildSet(states, p) - {b};
    }
  }

  /** A state has the fields of a record, an absent revision or scope reading as "", whatever its parent. */
  ghost predicate HasFieldsOf(state: BranchState, m: Meta) {
    state.lockReason == m.lockReason && state.branchType == m.branchType &&
    state.scope == (if m.scope.Some? then m.scope.value else "") &&
    state.revision == (if m.revision.Some? then m.revision.value else "")
  }

  /** The parent a branch has once a record is taken over. */
  function KeptParent(states: States, b: string, meta: Meta): string {
    if meta.parent.Some? then meta.parent.value else if b in states then states[b].parent else ""
  }

  class StateCore {
    var branches: seq<string>
    var branchState: States
    var childrenMap: ChildrenMap

    constructor ()
      ensures branches == [] && branchState == map[] && childrenMap == map[]
    {
      branches, branchState, childrenMap := [], map[], map[];
    }

    method RemoveFromChildren(parent: string, child: string)
      modifies this`childrenMap
      ensures childrenMap == DropEdge(old(childrenMap), parent, child)
    {
      if parent in childrenMap {
        childrenMap := childrenMap[parent := Remove(childrenMap[parent], child)];
        if childrenMap[parent] == [] {
          childrenMap := map k | k in childrenMap && k != parent :: childrenMap[k];
        }
      }
    }

    method RemoveBranch(b: string)
      modifies this`branchState, this`childrenMap
      ensures branchState == old(branchState) - {b}
      ensures b !in old(branchState) ==> childrenMap == old(childrenMap)
      ensures b in old(branchState) ==> childrenMap == Detached(old(branchState), old(childrenMap), b) - {b}
    {
      if b !in branchState { return; }
      if branchState[b].parent != "" {
        RemoveFromChildren(branchState[b].parent, b);
      }
      branchState := branchState - {b};
      childrenMap := childrenMap - {b};
    }

    /** Takes over a record. The index follows the parent, except that the empty name is never indexed; a record that
        names no parent leaves the parent alone. */
    method UpdateBranchStateFromMeta(b: string, meta: Meta)
      modifies this`branchState, this`childrenMap
      ensures branchState == old(branchState)[b := StateOf(meta).(parent := KeptParent(old(branchState), b, meta))]
      ensures childrenMap ==
        if meta.parent.None? then old(childrenMap)
          else Reattached(old(branchState), old(childrenMap), b, meta.parent.value)
      ensures b in branchState && HasFieldsOf(branchState[b], meta)
      ensures branchState[b].parent == if meta.parent.Some? then meta.parent.value
        else if b in old(branchState) then old(branchState)[b].parent else ""
      ensures forall c :: c != b ==>
        (c in branchState <==> c in old(branchState)) && (c in branchState ==> branchState[c] == old(branchState)[c])
    {
      var parent := if b in branchState then branchState[b].parent else "";
      if meta.parent.Some? {
        if parent != "" && parent != meta.parent.value {
          RemoveFromChildren(parent, b);
        }
        parent := meta.parent.value;
        if parent != "" && (parent !in childrenMap || b !in childrenMap[parent]) {
          childrenMap := childrenMap[parent := Sort((if parent in childrenMap then childrenMap[parent] else []) + [b])];
        }
      }
      branchState := branchState[b := StateOf(meta).(parent := parent)];
    }

    /** Drops a branch from the cache but keeps the list of its children, which still name it. */
    method DropBranch(name: string)
      requires name in branchState ==> branchState[name].parent != name
      requires name in childrenMap ==> childrenMap[name] != []
      modifies this`branchState, this`childrenMap
      ensures branchState == old(branchState) - {name}
      ensures childrenMap == Detached(old(branchState), old(childrenMap), name)
    {
      var children := if name in childrenMap then childrenMap[name] else [];
      RemoveBranch(name);
      if children != [] {
        childrenMap := childrenMap[name := children];
      }
    }

    /** Takes over a re-read record, or drops the branch when there is no usable one. */
    method MergeOne(name: string, meta: Option<Meta>)
      requires IsIndexOffRoot(branchState, childrenMap) && NoSelfParents(branchState)
      requires name == "" && "" in childrenMap ==> childrenMap[""] != []
      modifies this`branchState, this`childrenMap
      ensures branchState ==
        if meta.Some? && NamesParent(name, meta.value) then old(branchState)[name := StateOf(meta.value)]
        else old(branchState) - {name}
      ensures IsIndexOffRoot(branchState, childrenMap) && SameUnderEmpty(old(childrenMap), childrenMap)
      ensures NoSelfParents(branchState)
    {
      if meta.None? || !NamesParent(name, meta.value) {
        DetachedIndex(branchState, childrenMap, name);
        if name in childrenMap { NoEmptyLists(branchState, childrenMap, name); }
        DropBranch(name);
      } else {
        ReattachedIndex(branchState, childrenMap, name, StateOf(meta.value));
        UpdateBranchStateFromMeta(name, meta.value);
      }
    }

    /** Builds the cache afresh from every record read. */
    method ApplySharedMetadata(trunk: string, branches: seq<string>, allMeta: Store)
      modifies this
      ensures this.branches == branches && branchState == LoadedStates(trunk, allMeta) &&
        IsIndex(branchState, childrenMap)
      ensures forall b :: b in branchState <==>
        b in allMeta && b != trunk && allMeta[b].parent.Some? && allMeta[b].parent.value != b
      ensures forall b :: b in branchState ==>
        HasFieldsOf(branchState[b], allMeta[b]) && allMeta[b].parent == Some(branchState[b].parent)
    {
      this.branches, branchState, childrenMap := branches, map[], map[];
      var todo := allMeta.Keys;
      while todo != {}
        invariant todo <= allMeta.Keys && this.branches == branches
        invariant LoadedSoFar(branchState, trunk, allMeta, todo)
        invariant IsGathered(branchState, childrenMap)
        decreases todo
      {
        var name :| name in todo;
        var meta := allMeta[name];
        todo := todo - {name};
        if name != trunk && NamesParent(name, meta) {
          Gather(name, meta);
        }
      }
      assert branchState == LoadedStates(trunk, allMeta);
      SortChildren();
    }

    method Gather(name: string, meta: Meta)
      requires name !in branchState && meta.parent.Some? && IsGathered(branchState, childrenMap)
      modifies this`branchState, this`childrenMap
      ensures branchState == old(branchState)[name := StateOf(meta)] && IsGathered(branchState, childrenMap)
    {
      var parent := meta.parent.value;
      var siblings := if parent in childrenMap then childrenMap[parent] else [];
      childrenMap := childrenMap[parent := siblings + [name]];
      branchState := branchState[name := StateOf(meta)];
      GatherOne(old(branchState), old(childrenMap), name, StateOf(meta), branchState, childrenMap);
    }

    method SortChildren()
      requires IsGathered(branchState, childrenMap)
      modifies this`childrenMap
      ensures IsIndex(branchState, childrenMap)
    {
      var todo := childrenMap.Keys;
      while todo != {}
        invariant todo <= childrenMap.Keys == old(childrenMap).Keys
        invariant forall p :: p in childrenMap ==>
          childrenMap[p] == if p in todo then old(childrenMap)[p] else Sort(old(childrenMap)[p])
        decreases todo
      {
        var p :| p in todo;
        childrenMap := childrenMap[p := Sort(childrenMap[p])];
        todo := todo - {p};
      }
      forall p ensures ListedAt(childrenMap, p, ChildSet(branchState, p)) {
        assert Gathered(old(childrenMap), p, ChildSet(branchState, p));
        if p in childrenMap { SortSorts(old(childrenMap)[p]); }
      }
    }
  }

  /** s is collected under p, in any order. */
  ghost predicate Gathered(children: ChildrenMap, p: string, s: set<string>) {
    if s == {} then p !in children else p in children && Elems(children[p]) == s
  }

  ghost predicate IsGathered(states: States, children: ChildrenMap) {
    forall p :: Gathered(children, p, ChildSet(states, p))
  }

  lemma GatherOne(states: States, children: ChildrenMap, b: string, state: BranchState, states': States,
      children': ChildrenMap)
    requires b !in states && IsGathered(states, children) && states' == states[b := state]
    requires children' ==
      children[state.parent := (if state.parent in children then children[state.parent] else []) + [b]]
    ensures IsGathered(states', children')
  {
    forall p ensures Gathered(children', p, ChildSet(states', p)) {
      assert Gathered(children, p, ChildSet(states, p));
      assert ChildSet(states', p) == ChildSet(states, p) + if p == state.parent then {b} else {};
    }
  }

  // ---------- The metadata on disk ----------

  /** The records and the branches whose record cannot be read. */
  datatype Disk = Disk(records: Store, unreadable: set<string>)

  function BatchRead(disk: Disk, names: seq<string>): Store {
    map b | b in names && b !in disk.unreadable :: Value(Version(disk.records, b))
  }

  /** The records as a process reads them that has some of them in its read cache. */
  function Through(cached: Store, disk: Disk): Disk {
    Disk(disk.records + cached, disk.unreadable - cached.Keys)
  }

  /** The read cache holds what the disk holds, except perhaps for the named branches. */
  ghost predicate CachedButFor(cached: Store, disk: Disk, names: seq<string>) {
    forall b :: b in cached && b !in names ==> b !in disk.unreadable && cached[b] == Value(Version(disk.records, b))
  }

  /** The states agree, except perhaps on the named branches. */
  ghost predicate AgreeButFor(states: States, states': States, names: seq<string>) {
    forall b :: b !in names ==> (b in states <==> b in states') && (b in states ==> states[b] == states'[b])
  }

  lemma CachedLoadAgrees(trunk: string, cached: Store, disk: Disk, branches: seq<string>, names: seq<string>)
    requires CachedButFor(cached, disk, names)
    ensures AgreeButFor(LoadedStates(trunk, BatchRead(Through(cached, disk), branches)),
      LoadedStates(trunk, BatchRead(disk, branches)), names)
  {
    forall b | b !in names && b in branches
      ensures b in BatchRead(Through(cached, disk), branches) <==> b in BatchRead(disk, branches)
      ensures b in BatchRead(disk, branches) ==>
        BatchRead(Through(cached, disk), branches)[b] == BatchRead(disk, branches)[b]
    {
    }
  }

  /** Reading a record into the read cache changes nothing that is read. */
  lemma CachingIsInvisible(cached: Store, disk: Disk, more: Store, branches: seq<string>)
    requires forall b :: b in more ==>
      b !in Through(cached, disk).unreadable && more[b] == Value(Version(Through(cached, disk).records, b))
    ensures BatchRead(Through(cached + more, disk), branches) == BatchRead(Through(cached, disk), branches)
  {
  }

  /** The states of the branches in done as after, of the others as before. */
  function Mixed(before: States, after: States, done: seq<string>): States {
    map b | b in before.Keys + after.Keys && (if b in done then b in after else b in before) ::
      if b in done then after[b] else before[b]
  }

  lemma AllMixed(was: States, now: States, names: seq<string>)
    requires AgreeButFor(was, now, names)
    ensures Mixed(was, now, names) == now
  {
  }

  /** What re-reading one more of the named records makes of the states. */
  function MergedOne(states: States, trunk: string, allMeta: Store, name: string): States {
    if name == trunk then states
    else if name in allMeta && NamesParent(name, allMeta[name]) then states[name := StateOf(allMeta[name])]
    else states - {name}
  }

  lemma MixedStep(trunk: string, was: States, disk: Disk, branches: seq<string>, names: seq<string>, i: nat)
    requires i < |names| && names[i] in branches && trunk !in was
    ensures var now := LoadedStates(trunk, BatchRead(disk, branches));
      Mixed(was, now, names[..i + 1]) ==
        MergedOne(Mixed(was, now, names[..i]), trunk, BatchRead(disk, names), names[i])
  {
    var now, name := LoadedStates(trunk, BatchRead(disk, branches)), names[i];
    ReadAgrees(trunk, disk, branches, names, name);
    assert names[..i + 1] == names[..i] + [name];
    MixedOneMore(was, now, names[..i], name);
  }

  /** Reading the named records gives a named branch the state a full load would. */
  lemma ReadAgrees(trunk: string, disk: Disk, branches: seq<string>, names: seq<string>, b: string)
    requires b in names && b in branches
    ensures var now, read := LoadedStates(trunk, BatchRead(disk, branches)), BatchRead(disk, names);
      (b in now <==> b != trunk && b in read && NamesParent(b, read[b])) && (b in now ==> now[b] == StateOf(read[b]))
  {
  }

  lemma MixedOneMore(before: States, after: States, done: seq<string>, b: string)
    ensures b in after ==> Mixed(before, after, done + [b]) == Mixed(before, after, done)[b := after[b]]
    ensures b !in after ==> Mixed(before, after, done + [b]) == Mixed(before, after, done) - {b}
    ensures b !in before && b !in after ==> Mixed(before, after, done + [b]) == Mixed(before, after, done)
  {
    var was, now := Mixed(before, after, done), Mixed(before, after, done + [b]);
    forall x ensures x in now <==> if x == b then b in after else x in was
      ensures x in now ==> now[x] == if x == b then after[b] else was[x]
    {
      assert x in done + [b] <==> x in done || x == b;
    }
  }

  lemma NoEmptyLists(states: States, children: ChildrenMap, p: string)
    requires IsIndexOffRoot(states, children) && p in children && (p == "" ==> children[p] != [])
    ensures children[p] != []
  {
    assert p != "" ==> ListedAt(children, p, ChildSet(states, p));
  }

  lemma OneListing(children: ChildrenMap, p: string, s: set<string>, s': set<string>)
    requires ListedAt(children, p, s) && ListedAt(children, p, s')
    ensures s == s'
  {
  }

  /** An index left alone under the empty name, and right under every other, is right iff what it lists under the empty
      name is what it should list now. */
  lemma EmptyDecides(children: ChildrenMap, now: States, children': ChildrenMap)
    requires IsIndexOffRoot(now, children') && SameUnderEmpty(children, children')
    ensures IsIndex(now, children') <==> ListedAt(children, "", ChildSet(now, ""))
  {
    assert ListedAt(children, "", ChildSet(now, "")) <==> ListedAt(children', "", ChildSet(now, ""));
  }

  lemma OnceRight(states: States, children: ChildrenMap, now: States)
    requires IsIndex(states, children)
    ensures ListedAt(children, "", ChildSet(now, "")) <==> ChildSet(states, "") == ChildSet(now, "")
    ensures "" in children ==> children[""] != []
  {
    assert ListedAt(children, "", ChildSet(states, ""));
    if ListedAt(children, "", ChildSet(now, "")) { OneListing(children, "", ChildSet(states, ""), ChildSet(now, "")); }
    if "" in children { FirstElem(children[""]); }
  }

  /** A branch reloaded with an empty parent name is missing from the index a full rebuild would build. */
  lemma EmptyParentDrifts()
    ensures var states: States := map["b" := StateOf(EMPTY.(parent := Some("")))];
      !IsIndex(states, Reattached(map[], map[], "b", ""))
  {
    var states: States := map["b" := StateOf(EMPTY.(parent := Some("")))];
    assert "b" in ChildSet(states, "");
    assert !ListedAt(map[], "", ChildSet(states, ""));
  }

  // ---------- Lazy loading ----------

  /** The states that loading branch by branch can give: it never asks whether a branch is trunk. */
  function LazilyLoaded(allMeta: Store): States {
    map b | b in allMeta && NamesParent(b, allMeta[b]) :: StateOf(allMeta[b])
  }

  /** Loading branch by branch gives what a full load gives iff trunk's own record names no parent. */
  lemma LazyAgrees(trunk: string, allMeta: Store)
    ensures LazilyLoaded(allMeta) == LoadedStates(trunk, allMeta) <==>
      !(trunk in allMeta && NamesParent(trunk, allMeta[trunk]))
  {
    if trunk in allMeta && NamesParent(trunk, allMeta[trunk]) {
      assert trunk in LazilyLoaded(allMeta) && trunk !in LoadedStates(trunk, allMeta);
    }
  }

  /** With a record that names a parent for trunk, branch by branch trunk is tracked, and in a full load it is not. */
  lemma TrunkTrackedLazily()
    ensures var allMeta: Store := map["t" := EMPTY.(parent := Some("b"))];
      "t" in LazilyLoaded(allMeta) && LazilyLoaded(allMeta)["t"].parent == "b" && "t" !in LoadedStates("t", allMeta)
  {
    assert "b"[0] != "t"[0];
  }

  // ---------- Scope inheritance ----------

  function ParentsOf(states: States): ParentMap {
    map b | b in states :: states[b].parent
  }

  /** A scope that breaks inheritance reads as none. */
  function Resolve(scope: string): string {
    if scope == "none" || scope == "clear" then "" else scope
  }

  /** A branch without a scope of its own, below another branch. */
  ghost predicate PassesOn(states: States, trunk: string, b: string) {
    b in states && states[b].scope == "" && states[b].parent != "" && states[b].parent != trunk
  }

  /** So are the first n branches on the way up from b. */
  ghost predicate AllPassOn(states: States, trunk: string, b: string, n: nat) {
    forall i: nat :: i < n ==> PassesOn(states, trunk, Climb(ParentsOf(states), b, i))
  }

  /** The first explicit scope on the way up from b is n steps up. */
  ghost predicate ScopeAt(states: States, trunk: string, b: string, n: nat) {
    var x := Climb(ParentsOf(states), b, n);
    x in states && states[x].scope != "" && AllPassOn(states, trunk, b, n)
  }

  /** r is the nearest explicit scope of b, or "" if there is none. */
  ghost predicate IsScope(states: States, trunk: string, b: string, r: string) {
    if exists n: nat :: ScopeAt(states, trunk, b, n)
    then exists n: nat :: ScopeAt(states, trunk, b, n) && r == Resolve(states[Climb(ParentsOf(states), b, n)].scope)
    else r == ""
  }

  /** The first n names of the walk from b. */
  ghost function Trail(pm: ParentMap, b: string, n: nat): set<string> {
    if n == 0 then {} else Trail(pm, b, n - 1) + {Climb(pm, b, n - 1)}
  }

  lemma {:induction false} MetOnTrail(pm: ParentMap, b: string, n: nat, x: string) returns (i: nat)
    requires x in Trail(pm, b, n)
    ensures i < n && Climb(pm, b, i) == x
  {
    if x == Climb(pm, b, n - 1) { i := n - 1; } else { i := MetOnTrail(pm, b, n - 1, x); }
  }

  /** The first branch that does not pass the question on decides it. */
  lemma ScopeEnds(states: States, trunk: string, b: string, n: nat)
    requires AllPassOn(states, trunk, b, n) && !PassesOn(states, trunk, Climb(ParentsOf(states), b, n))
    ensures var x := Climb(ParentsOf(states), b, n);
      IsScope(states, trunk, b, if x in states then Resolve(states[x].scope) else "")
  {
    var x := Climb(ParentsOf(states), b, n);
    if x in states && states[x].scope != "" {
      assert ScopeAt(states, trunk, b, n);
    } else {
      forall m: nat ensures !ScopeAt(states, trunk, b, m) {
        assert m > n ==> !AllPassOn(states, trunk, b, m);
      }
    }
  }

  /** A branch's own scope comes before any other, and one that breaks inheritance is none. */
  lemma ScopeIs(states: States, trunk: string, b: string, r: string)
    requires IsScope(states, trunk, b, r)
    ensures b !in states ==> r == ""
    ensures b in states && states[b].scope != "" ==>
      r == if states[b].scope in {"none", "clear"} then "" else states[b].scope
    ensures r !in {"none", "clear"}
  {
    if b !in states || states[b].scope != "" { ScopeEnds(states, trunk, b, 0); }
    forall m: nat, n: nat | ScopeAt(states, trunk, b, m) && ScopeAt(states, trunk, b, n) ensures m == n {
      assert m < n ==> PassesOn(states, trunk, Climb(ParentsOf(states), b, m));
      assert n < m ==> PassesOn(states, trunk, Climb(ParentsOf(states), b, n));
    }
    if b in states && states[b].scope != "" { assert ScopeAt(states, trunk, b, 0); }
  }

  /** The walk from b has passed n branches, those in visited, and is at current. */
  ghost predicate OnTheWay(states: States, trunk: string, b: string, n: nat, current: string, visited: set<string>) {
    current == Climb(ParentsOf(states), b, n) && visited == Trail(ParentsOf(states), b, n) && visited <= states.Keys &&
    AllPassOn(states, trunk, b, n)
  }

  lemma OneMorePassesOn(states: States, trunk: string, b: string, n: nat, current: string, visited: set<string>)
    requires OnTheWay(states, trunk, b, n, current, visited) && PassesOn(states, trunk, current)
    ensures OnTheWay(states, trunk, b, n + 1, states[current].parent, visited + {current})
  {
    ClimbStep(ParentsOf(states), b, n);
  }

  /** A walk that comes back to a branch without having met a scope never meets one. */
  lemma NoScopeOnCycle(states: States, trunk: string, b: string, n: nat, current: string, visited: set<string>)
    requires OnTheWay(states, trunk, b, n, current, visited) && current in visited
    ensures forall m: nat :: !ScopeAt(states, trunk, b, m)
    ensures IsScope(states, trunk, b, "")
  {
    var i := MetOnTrail(ParentsOf(states), b, n, current);
    forall m: nat ensures !ScopeAt(states, trunk, b, m) {
      var k := CyclicWalkStays(ParentsOf(states), b, i, n, m);
      assert PassesOn(states, trunk, Climb(ParentsOf(states), b, k));
    }
  }

  // ---------- The engine's cache ----------

  /** The lazily loaded cache of one engine. */
  class Cache {
    const trunk: string
    const core: StateCore
    var disk: Disk
    var cached: Store // the records read so far, which are not read again
    var sharedLoaded: bool

    /** The records as this engine reads them. */
    function Seen(): Disk
      reads this
    {
      Through(cached, disk)
    }

    /** The states a full load would give. */
    ghost function Full(): States
      reads this, core
    {
      LoadedStates(trunk, BatchRead(Seen(), core.branches))
    }

    /** Starts with nothing but the list of branches. */
    constructor (trunk: string, branches: seq<string>, disk: Disk)
      ensures fresh(core) && this.trunk == trunk && this.disk == disk && core.branches == branches && !sharedLoaded
      ensures core.branchState == map[] && cached == map[]
    {
      this.trunk, this.disk, cached, sharedLoaded := trunk, disk, map[], false;
      core := new StateCore();
      new;
      core.branches := branches;
    }

    /** The states that loading branch by branch can give: it never asks whether a branch is trunk. */
    ghost function LazyStates(): States
      reads this, core
    {
      LazilyLoaded(BatchRead(Seen(), core.branches))
    }

    /** What the accessors answer from. */
    ghost function View(): States
      reads this, core
    {
      if sharedLoaded then Full() else LazyStates()
    }

    /** The record of a branch as this engine reads it: what it has read already, or what is on disk, an empty record
        where there is none; None if it cannot be read. */
    ghost function RecordOf(b: string): Option<Meta>
      reads this
    {
      if b in cached then Some(cached[b])
      else if b in disk.unreadable then None
      else if b in disk.records then Some(disk.records[b])
      else Some(Meta(None, None, None, "", ""))
    }

    /** The branch exists, and its record can be read and names a parent other than itself; a full load leaves out
        trunk. */
    ghost predicate HasState(b: string)
      reads this, core
    {
      b in core.branches && RecordOf(b).Some? && RecordOf(b).value.parent.Some? &&
      RecordOf(b).value.parent.value != b && !(sharedLoaded && b == trunk)
    }

    /** What the accessors answer from is what the records say, field by field. */
    lemma ViewIsRecords()
      ensures forall b :: b in View() <==> HasState(b)
      ensures forall b :: b in View() ==>
        var m := RecordOf(b).value;
        HasFieldsOf(View()[b], m) && m.parent == Some(View()[b].parent)
    {
    }

    ghost predicate Valid()
      reads this, core
    {
      (sharedLoaded ==> core.branchState == Full()) &&
      forall b :: b in core.branchState ==> b in View() && core.branchState[b] == View()[b]
    }

    /** Loading branch by branch answers as a full load would exactly when trunk's own record names no parent. */
    lemma LazyAgreesWithFull()
      ensures LazyStates() == Full() <==> trunk !in LazyStates()
    {
      LazyAgrees(trunk, BatchRead(Seen(), core.branches));
    }

    /** Loads every branch, once, replacing whatever was cached. */
    method EnsureSharedLoaded()
      modifies core, this`sharedLoaded, this`cached
      ensures sharedLoaded && core.branches == old(core.branches)
      ensures old(sharedLoaded) ==>
        core.branchState == old(core.branchState) && core.childrenMap == old(core.childrenMap) && cached == old(cached)
      ensures !old(sharedLoaded) ==> Valid() && Full() == old(Full()) && IsIndex(core.branchState, core.childrenMap)
      ensures forall b :: RecordOf(b) == old(RecordOf(b))
    {
      if sharedLoaded { return; }
      var allMeta := BatchRead(Seen(), core.branches);
      CachingIsInvisible(cached, disk, allMeta, core.branches);
      core.ApplySharedMetadata(trunk, core.branches, allMeta);
      cached, sharedLoaded := cached + allMeta, true;
    }

    method EnsureBranchSharedLoaded(b: string)
      requires Valid()
      modifies core, this`cached
      ensures Valid() && View() == old(View()) && core.branches == old(core.branches)
      ensures forall x :: RecordOf(x) == old(RecordOf(x))
      ensures b in core.branchState <==> b in View()
    {
      if sharedLoaded || b in core.branchState || b !in core.branches { return; }
      ViewIsRecords();
      var meta := ReadRecord(b);
      if meta.None? || !NamesParent(b, meta.value) { return; }
      core.UpdateBranchStateFromMeta(b, meta.value);
    }

    /** Reads one record, unless it has been read already; no answer depends on it. */
    method ReadRecord(b: string) returns (meta: Option<Meta>)
      modifies this`cached
      ensures meta == old(RecordOf(b)) && forall x :: RecordOf(x) == old(RecordOf(x))
      ensures Full() == old(Full()) && LazyStates() == old(LazyStates())
    {
      if b in Seen().unreadable { return None; }
      var m := Value(Version(Seen().records, b));
      CachingIsInvisible(cached, disk, map[b := m], core.branches);
      cached := cached + map[b := m];
      return Some(m);
    }

    // ---------- Accessors ----------

    /** The state of a branch, loading it if need be. */
    method ReadState(b: string) returns (r: Option<BranchState>)
      requires Valid()
      modifies core, this`cached
      ensures Valid() && View() == old(View()) && core.branches == old(core.branches)
      ensures forall x :: RecordOf(x) == old(RecordOf(x))
      ensures r == if b in View() then Some(View()[b]) else None
    {
      EnsureBranchSharedLoaded(b);
      r := if b in core.branchState then Some(core.branchState[b]) else None;
    }

    method GetParent(b: string) returns (r: Option<string>)
      requires Valid()
      modifies core, this`cached
      ensures Valid() && View() == old(View()) && core.branches == old(core.branches)
      ensures forall x :: RecordOf(x) == old(RecordOf(x))
      ensures r == if old(HasState(b)) then old(RecordOf(b)).value.parent else None
    {
      ViewIsRecords();
      var state := ReadState(b);
      r := if state.Some? then Some(state.value.parent) else None;
    }

    method IsTracked(b: string) returns (r: bool)
      requires Valid()
      modifies core, this`cached
      ensures Valid() && View() == old(View()) && core.branches == old(core.branches)
      ensures forall x :: RecordOf(x) == old(RecordOf(x))
      ensures r <==> old(HasState(b)) && old(RecordOf(b)).value.parent != Some("")
    {
      ViewIsRecords();
      var state := ReadState(b);
      r := state.Some? && state.value.parent != "";
    }

    method GetLockReason(b: string) returns (r: string)
      requires Valid()
      modifies core, this`cached
      ensures Valid() && View() == old(View()) && core.branches == old(core.branches)
      ensures forall x :: RecordOf(x) == old(RecordOf(x))
      ensures r == if old(HasState(b)) then old(RecordOf(b)).value.lockReason else ""
    {
      ViewIsRecords();
      var state := ReadState(b);
      r := if state.Some? then state.value.lockReason else "";
    }

    method GetBranchType(b: string) returns (r: string)
      requires Valid()
      modifies core, this`cached
      ensures Valid() && View() == old(View()) && core.branches == old(core.branches)
      ensures forall x :: RecordOf(x) == old(RecordOf(x))
      ensures r == if old(HasState(b)) then old(RecordOf(b)).value.branchType else ""
    {
      ViewIsRecords();
      var state := ReadState(b);
      r := if state.Some? then state.value.branchType else "";
    }

    /** Looks for a scope at one branch: the answer, or the parent to go on with. */
    method ScopeHere(b: string, ghost states: States) returns (answer: Option<string>, next: string)
      requires Valid() && View() == states
      modifies core, this`cached
      ensures Valid() && View() == states
      ensures answer.None? ==> PassesOn(states, trunk, b) && next == states[b].parent
      ensures answer.Some? ==>
        !PassesOn(states, trunk, b) && answer.value == if b in states then Resolve(states[b].scope) else ""
    {
      var loaded := ReadState(b);
      if loaded.None? { return Some(""), ""; }
      var state := loaded.value;
      if state.scope != "" { return Some(Resolve(state.scope)), ""; }
      if state.parent == "" || state.parent == trunk { return Some(""), ""; }
      return None, state.parent;
    }

    /** The nearest explicit scope on the way up to trunk. */
    method GetScope(b: string) returns (r: string)
      requires Valid()
      modifies core, this`cached
      ensures Valid() && View() == old(View())
      ensures IsScope(View(), trunk, b, r)
      ensures r !in {"none", "clear"}
      ensures old(HasState(b)) && old(RecordOf(b)).value.scope.Some? && old(RecordOf(b)).value.scope.value != "" ==>
        r == if old(RecordOf(b)).value.scope.value in {"none", "clear"} then "" else old(RecordOf(b)).value.scope.value
      ensures !old(HasState(b)) ==> r == ""
    {
      ViewIsRecords();
      r := FindScope(b);
      ScopeIs(View(), trunk, b, r);
    }

    /** Walks up to the first explicit scope. Ends on any parent map. */
    method FindScope(b: string) returns (r: string)
      requires Valid()
      modifies core, this`cached
      ensures Valid() && View() == old(View())
      ensures IsScope(View(), trunk, b, r)
    {
      ghost var states := View();
      ghost var n: nat := 0;
      var current, visited: set<string> := b, {};
      while current !in visited
        invariant Valid() && View() == states && OnTheWay(states, trunk, b, n, current, visited)
        decreases states.Keys - visited
      {
        var answer, next := ScopeHere(current, states);
        if answer.Some? {
          ScopeEnds(states, trunk, b, n);
          return answer.value;
        }
        OneMorePassesOn(states, trunk, b, n, current, visited);
        visited := visited + {current};
        current, n := next, n + 1;
      }
      NoScopeOnCycle(states, trunk, b, n, current, visited);
      return "";
    }

    /** Reloads only the named branches, after a full load if there was none. What was cached of them beforehand, and
        the records a forced load still finds for them in the read cache, may be as old as they like. The states come
        out as a full rebuild would have them, and so does the children index under every name but the empty one. */
    method RebuildBranches(names: seq<string>)
      requires sharedLoaded ==> Mergeable(core.branchState, core.childrenMap, trunk)
      requires sharedLoaded ==>
        AgreeButFor(core.branchState, LoadedStates(trunk, BatchRead(disk, core.branches)), names)
      requires CachedButFor(cached, disk, names) && forall b :: b in names ==> b in core.branches
      modifies core, this`sharedLoaded, this`cached
      ensures names == [] ==>
        sharedLoaded == old(sharedLoaded) && core.branchState == old(core.branchState) &&
        core.childrenMap == old(core.childrenMap)
      ensures names != [] ==> core.branches == old(core.branches) && sharedLoaded
      ensures names != [] ==> core.branchState == LoadedStates(trunk, BatchRead(disk, core.branches)) && Valid()
      ensures names != [] ==> IsIndexOffRoot(core.branchState, core.childrenMap)
      ensures names != [] ==> Mergeable(core.branchState, core.childrenMap, trunk)
      ensures names != [] ==> (IsIndex(core.branchState, core.childrenMap) <==>
        if old(sharedLoaded) then ListedAt(old(core.childrenMap), "", ChildSet(core.branchState, ""))
        else ChildSet(old(Full()), "") == ChildSet(core.branchState, ""))
    {
      if names == [] { return; }
      CachedLoadAgrees(trunk, cached, disk, core.branches, names);
      EnsureSharedLoaded();
      if !old(sharedLoaded) {
        OnceRight(core.branchState, core.childrenMap, LoadedStates(trunk, BatchRead(disk, core.branches)));
      }
      ReloadNamed(names);
    }

    /** Reads the named records from disk and merges them into the loaded cache. */
    method ReloadNamed(names: seq<string>)
      requires sharedLoaded && Mergeable(core.branchState, core.childrenMap, trunk)
      requires AgreeButFor(core.branchState, LoadedStates(trunk, BatchRead(disk, core.branches)), names)
      requires forall b :: b in names ==> b in core.branches
      modifies core, this`cached
      ensures core.branches == old(core.branches) && Valid()
      ensures core.branchState == LoadedStates(trunk, BatchRead(disk, core.branches))
      ensures Mergeable(core.branchState, core.childrenMap, trunk)
      ensures IsIndex(core.branchState, core.childrenMap) <==>
        ListedAt(old(core.childrenMap), "", ChildSet(core.branchState, ""))
    {
      var allMeta := Reread(names);
      Merge(names, allMeta);
    }

    /** Drops the read cache and reads the named records from disk. */
    method Reread(names: seq<string>) returns (allMeta: Store)
      modifies this`cached
      ensures allMeta == BatchRead(disk, names) && Full() == LoadedStates(trunk, BatchRead(disk, core.branches))
    {
      cached := map[];
      assert Seen() == disk;
      allMeta := BatchRead(Seen(), names);
      CachingIsInvisible(cached, disk, allMeta, core.branches);
      cached := cached + allMeta;
    }

    /** Merges the re-read records into the loaded cache. */
    method Merge(names: seq<string>, allMeta: Store)
      requires Mergeable(core.branchState, core.childrenMap, trunk)
      requires AgreeButFor(core.branchState, LoadedStates(trunk, BatchRead(disk, core.branches)), names)
      requires allMeta == BatchRead(disk, names) && forall b :: b in names ==> b in core.branches
      modifies core
      ensures core.branches == old(core.branches) &&
        core.branchState == LoadedStates(trunk, BatchRead(disk, core.branches))
      ensures Mergeable(core.branchState, core.childrenMap, trunk)
      ensures IsIndex(core.branchState, core.childrenMap) <==>
        ListedAt(old(core.childrenMap), "", ChildSet(core.branchState, ""))
    {
      ghost var was, now := core.branchState, LoadedStates(trunk, BatchRead(disk, core.branches));
      for i := 0 to |names|
        invariant core.branches == old(core.branches) && core.branchState == Mixed(was, now, names[..i])
        invariant IsIndexOffRoot(core.branchState, core.childrenMap) &&
          SameUnderEmpty(old(core.childrenMap), core.childrenMap)
        invariant NoSelfParents(core.branchState)
      {
        var name := names[i];
        MixedStep(trunk, was, disk, core.branches, names, i);
        if name == trunk { continue; }
        core.MergeOne(name, if name in allMeta then Some(allMeta[name]) else None);
      }
      assert names[..|names|] == names;
      AllMixed(was, now, names);
      EmptyDecides(old(core.childrenMap), core.branchState, core.childrenMap);
    }
  }
}
