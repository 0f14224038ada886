/** The linear-stack rule: the validator that judges a batch of parent moves and removals by the graph it would leave,
    and what the rule means for deletions. */
module LinearShape {
  import opened Forest
  import opened StackGraph

  datatype Move = Move(branch: string, newParent: string)

  // ---------- The rule ----------

  /** At most one child under every branch that is not trunk. */
  ghost predicate Linear(branches: seq<string>, pm: ParentMap, trunk: string) {
    forall a, b ::
      (GraphParent(branches, pm, a) == GraphParent(branches, pm, b) && GraphParent(branches, pm, a) !in {"", trunk}) ==>
        a == b
  }

  // ---------- Applying moves and removals ----------

  function ApplyMoves(pm: ParentMap, moves: seq<Move>): ParentMap {
    if moves == [] then pm
    else
      var m := moves[|moves| - 1];
      ApplyMoves(pm, moves[..|moves| - 1])[m.branch := m.newParent]
  }

  ghost predicate IsMover(moves: seq<Move>, b: string) {
    exists m :: m in moves && m.branch == b
  }

  /** A branch is sent to one place only. */
  ghost predicate OneTarget(moves: seq<Move>) {
    forall m, m' :: m in moves && m' in moves && m.branch == m'.branch ==> m == m'
  }

  lemma {:induction false} ApplyMovesValue(pm: ParentMap, moves: seq<Move>, b: string)
    ensures IsMover(moves, b) ==> b in ApplyMoves(pm, moves) && Move(b, ApplyMoves(pm, moves)[b]) in moves
    ensures !IsMover(moves, b) ==> (b in ApplyMoves(pm, moves) <==> b in pm)
    ensures !IsMover(moves, b) && b in pm ==> ApplyMoves(pm, moves)[b] == pm[b]
  {
    if moves != [] {
      var last, init := moves[|moves| - 1], moves[..|moves| - 1];
      assert moves == init + [last];
      ApplyMovesValue(pm, init, b);
      assert IsMover(moves, b) ==> IsMover(init, b) || last.branch == b;
      assert IsMover(init, b) ==> IsMover(moves, b);
      if last.branch == b { assert Move(b, last.newParent) in moves; }
    }
  }

  function Without(branches: seq<string>, removed: seq<string>): (r: seq<string>)
    ensures forall b :: b in r <==> b in branches && b !in removed
  {
    if branches == [] then []
    else (if branches[0] in removed then [] else [branches[0]]) + Without(branches[1..], removed)
  }

  function Except<V>(m: map<string, V>, removed: seq<string>): map<string, V> {
    map b | b in m && b !in removed :: m[b]
  }

  /** The parent map once the removed branches are gone and the moves are made. */
  function ParentsAfter(pm: ParentMap, moves: seq<Move>, removed: seq<string>): ParentMap {
    ApplyMoves(Except(pm, removed), moves)
  }

  // ---------- The validator ----------

  type Children = map<string, set<string>>

  ghost predicate Has(children: Children, p: string, c: string) {
    p in children && c in children[p]
  }

  /** The edges the validator is left with once it has edited the child sets. */
  ghost predicate FinalEdge(branches: seq<string>, pm: ParentMap, moves: seq<Move>, removed: seq<string>, p: string,
      c: string) {
    || Move(c, p) in moves
    || (p != "" && GraphParent(branches, pm, c) == p && !IsMover(moves, c) && c !in removed && p !in removed)
  }

  ghost predicate LinearAfter(trunk: string, branches: seq<string>, pm: ParentMap, moves: seq<Move>,
      removed: seq<string>) {
    forall p, c, c' ::
      (p != trunk && FinalEdge(branches, pm, moves, removed, p, c) &&
        FinalEdge(branches, pm, moves, removed, p, c')) ==> c == c'
  }

  function AddChild(children: Children, p: string, c: string): (r: Children)
    ensures forall q, d :: Has(r, q, d) <==> Has(children, q, d) || (q == p && d == c)
  {
    children[p := (if p in children then children[p] else {}) + {c}]
  }

  function DropChild(children: Children, p: string, c: string): (r: Children)
    ensures forall q, d :: Has(r, q, d) <==> Has(children, q, d) && !(q == p && d == c)
  {
    if p in children then children[p := children[p] - {c}] else children
  }

  function DropParent(children: Children, p: string): (r: Children)
    ensures forall q, d :: Has(r, q, d) <==> Has(children, q, d) && q != p
  {
    map q | q in children && q != p :: children[q]
  }

  lemma MoverAppend(moves: seq<Move>, m: Move)
    ensures forall c :: IsMover(moves + [m], c) <==> IsMover(moves, c) || c == m.branch
  {
    assert m in moves + [m];
    assert forall m' :: m' in moves ==> m' in moves + [m];
  }

  /** Collects the child sets of the graph as it stands. */
  method GraphChildren(branches: seq<string>, pm: ParentMap) returns (children: Children)
    ensures forall p, c :: Has(children, p, c) <==> p != "" && GraphParent(branches, pm, c) == p
  {
    children := map[];
    for i := 0 to |branches|
      invariant forall p, c :: Has(children, p, c) <==>
        p != "" && c in branches[..i] && GraphParent(branches, pm, c) == p
    {
      assert branches[..i + 1] == branches[..i] + [branches[i]];
      var parent := GraphParent(branches, pm, branches[i]);
      if parent != "" {
        children := AddChild(children, parent, branches[i]);
      }
    }
    assert branches[..|branches|] == branches;
  }

  /** Accepts a batch iff the rule is off, or nothing moves, or no branch but trunk ends up with two children. */
  method ValidateLinearParentMovesAfterRemovals(linearStacks: bool, trunk: string, branches: seq<string>, pm: ParentMap,
                                                moves: seq<Move>, removed: seq<string>) returns (ok: bool)
    ensures ok <==> !linearStacks || moves == [] || LinearAfter(trunk, branches, pm, moves, removed)
  {
    if !linearStacks || moves == [] { return true; }
    var children := GraphChildren(branches, pm);

    for i := 0 to |moves|
      invariant forall p, c :: Has(children, p, c) <==>
        p != "" && GraphParent(branches, pm, c) == p && !IsMover(moves[..i], c)
    {
      assert moves[..i + 1] == moves[..i] + [moves[i]];
      MoverAppend(moves[..i], moves[i]);
      var parent := GraphParent(branches, pm, moves[i].branch);
      if parent != "" {
        children := DropChild(children, parent, moves[i].branch);
      }
    }
    assert moves[..|moves|] == moves;

    for i := 0 to |removed|
      invariant forall p, c :: Has(children, p, c) <==>
        (p != "" && GraphParent(branches, pm, c) == p && !IsMover(moves, c) && c !in removed[..i] && p !in removed[..i])
    {
      assert removed[..i + 1] == removed[..i] + [removed[i]];
      var parent := GraphParent(branches, pm, removed[i]);
      if parent != "" {
        children := DropChild(children, parent, removed[i]);
      }
      children := DropParent(children, removed[i]);
    }
    assert removed[..|removed|] == removed;

    for i := 0 to |moves|
      invariant forall p, c :: Has(children, p, c) <==>
        (Move(c, p) in moves[..i] ||
          (p != "" && GraphParent(branches, pm, c) == p && !IsMover(moves, c) && c !in removed && p !in removed))
    {
      assert moves[..i + 1] == moves[..i] + [moves[i]];
      children := AddChild(children, moves[i].newParent, moves[i].branch);
    }
    assert moves[..|moves|] == moves;
    assert forall p, c :: Has(children, p, c) <==> FinalEdge(branches, pm, moves, removed, p, c);

    var todo := children.Keys;
    while todo != {}
      invariant todo <= children.Keys
      invariant forall p, c, c' :: p !in todo && p != trunk && Has(children, p, c) && Has(children, p, c') ==> c == c'
      decreases todo
    {
      var p :| p in todo;
      if p != trunk && |children[p]| > 1 {
        TwoMembers(children[p]);
        var c, c' :| c in children[p] && c' in children[p] && c != c';
        assert Has(children, p, c) && Has(children, p, c');
        return false;
      }
      if p != trunk { FewMembers(children[p]); }
      todo := todo - {p};
    }
    return true;
  }

  lemma TwoMembers(s: set<string>)
    requires |s| > 1
    ensures exists x, y :: x in s && y in s && x != y
  {
    var x :| x in s;
    assert |s - {x}| > 0;
    var y :| y in s - {x};
  }

  lemma FewMembers(s: set<string>)
    requires |s| <= 1
    ensures forall x, y :: x in s && y in s ==> x == y
  {
    forall x, y | x in s && y in s ensures x == y {
      if x != y { assert {x, y} <= s; SubsetSize({x, y}, s); }
    }
  }

  lemma {:induction false} SubsetSize(a: set<string>, b: set<string>)
    requires a <= b
    ensures |a| <= |b|
  {
    if a != {} {
      var x :| x in a;
      SubsetSize(a - {x}, b - {x});
    }
  }

  // ---------- The validator judges the graph that is really left ----------

  /** Every mover and every target exists and stays. */
  ghost predicate Staying(branches: seq<string>, moves: seq<Move>, removed: seq<string>) {
    "" !in branches && forall m :: m in moves ==>
      m.branch in branches && m.newParent in branches && m.branch !in removed && m.newParent !in removed
  }

  /** An accepted batch, whatever it holds, leaves a linear graph. */
  lemma AcceptedIsLinear(trunk: string, branches: seq<string>, pm: ParentMap, moves: seq<Move>, removed: seq<string>)
    requires LinearAfter(trunk, branches, pm, moves, removed)
    ensures Linear(Without(branches, removed), ParentsAfter(pm, moves, removed), trunk)
  {
    var bs, after := Without(branches, removed), ParentsAfter(pm, moves, removed);
    var kept := Except(pm, removed);
    forall c
      ensures GraphParent(bs, after, c) != "" ==> FinalEdge(branches, pm, moves, removed, GraphParent(bs, after, c), c)
    {
      ApplyMovesValue(kept, moves, c);
    }
  }

  /** A batch accepted before its removals is accepted again once they are made. */
  lemma AcceptedAfterRemoval(trunk: string, branches: seq<string>, pm: ParentMap, moves: seq<Move>,
      removed: seq<string>)
    requires LinearAfter(trunk, branches, pm, moves, removed) || moves == []
    ensures moves == [] || LinearAfter(trunk, Without(branches, removed), Except(pm, removed), moves, [])
  {
    var bs, kept := Without(branches, removed), Except(pm, removed);
    assert forall p, c :: FinalEdge(bs, kept, moves, [], p, c) ==> FinalEdge(branches, pm, moves, removed, p, c);
  }

  /** The edges the validator is left with are those of the graph that making the moves leaves, and the moves. */
  lemma FinalEdges(branches: seq<string>, pm: ParentMap, moves: seq<Move>, removed: seq<string>, p: string, c: string)
    requires Staying(branches, moves, removed)
    ensures FinalEdge(branches, pm, moves, removed, p, c) <==>
      Move(c, p) in moves || p == GraphParent(Without(branches, removed), ParentsAfter(pm, moves, removed), c) != ""
  {
    ApplyMovesValue(Except(pm, removed), moves, c);
    if Move(c, p) in moves { assert IsMover(moves, c); }
  }

  /** A later move of the same branch overrides m. */
  ghost predicate Overridden(after: ParentMap, m: Move) {
    Parent(after, m.branch) != m.newParent
  }

  /** Branch c is sent to p or ends up there. */
  ghost predicate Claims(branches: seq<string>, after: ParentMap, moves: seq<Move>, p: string, c: string) {
    Move(c, p) in moves || GraphParent(branches, after, c) == p
  }

  /** A move that is overridden went to trunk, or to a branch that no other branch is sent to or ends up at. */
  ghost predicate NoClash(trunk: string, branches: seq<string>, after: ParentMap, moves: seq<Move>) {
    forall m, c :: m in moves && Overridden(after, m) && Claims(branches, after, moves, m.newParent, c) ==>
      m.newParent == trunk || c == m.branch
  }

  /** The exact verdict: a batch whose movers and targets exist and stay is accepted iff making its moves leaves a
      linear graph and no overridden move clashes. */
  lemma VerdictIs(trunk: string, branches: seq<string>, pm: ParentMap, moves: seq<Move>, removed: seq<string>)
    requires Staying(branches, moves, removed)
    ensures var bs, after := Without(branches, removed), ParentsAfter(pm, moves, removed);
      LinearAfter(trunk, branches, pm, moves, removed) <==> Linear(bs, after, trunk) && NoClash(trunk, bs, after, moves)
  {
    var bs, after := Without(branches, removed), ParentsAfter(pm, moves, removed);
    forall p, c
      ensures FinalEdge(branches, pm, moves, removed, p, c) <==>
        Move(c, p) in moves || p == GraphParent(bs, after, c) != ""
    {
      FinalEdges(branches, pm, moves, removed, p, c);
    }
    if LinearAfter(trunk, branches, pm, moves, removed) {
      AcceptedIsLinear(trunk, branches, pm, moves, removed);
      forall m, c | m in moves && m.newParent != trunk && Claims(bs, after, moves, m.newParent, c)
        ensures c == m.branch
      {
        assert FinalEdge(branches, pm, moves, removed, m.newParent, m.branch);
        assert FinalEdge(branches, pm, moves, removed, m.newParent, c);
      }
    } else {
      var p, c, c' :| p != trunk && FinalEdge(branches, pm, moves, removed, p, c) &&
        FinalEdge(branches, pm, moves, removed, p, c') && c != c';
      if Linear(bs, after, trunk) { ClashFound(trunk, branches, pm, moves, removed, p, c, c'); }
    }
  }

  /** Two branches left under one, in a batch that leaves a linear graph: one of them by an overridden move. */
  lemma ClashFound(trunk: string, branches: seq<string>, pm: ParentMap, moves: seq<Move>, removed: seq<string>,
      p: string, c: string, c': string)
    requires Staying(branches, moves, removed) && p != trunk && c != c'
    requires FinalEdge(branches, pm, moves, removed, p, c) && FinalEdge(branches, pm, moves, removed, p, c')
    requires Linear(Without(branches, removed), ParentsAfter(pm, moves, removed), trunk)
    ensures !NoClash(trunk, Without(branches, removed), ParentsAfter(pm, moves, removed), moves)
  {
    var bs, after := Without(branches, removed), ParentsAfter(pm, moves, removed);
    FinalEdges(branches, pm, moves, removed, p, c);
    FinalEdges(branches, pm, moves, removed, p, c');
    assert Claims(bs, after, moves, p, c) && Claims(bs, after, moves, p, c');
    if GraphParent(bs, after, c) != p {
      assert Move(c, p) in moves && Overridden(after, Move(c, p));
    } else {
      assert GraphParent(bs, after, c') != p;
      assert Move(c', p) in moves && Overridden(after, Move(c', p));
    }
  }

  /** So for a batch that sends no branch to two places the verdict is exactly the shape of the graph left. */
  lemma VerdictIsExact(trunk: string, branches: seq<string>, pm: ParentMap, moves: seq<Move>, removed: seq<string>)
    requires Staying(branches, moves, removed) && OneTarget(moves)
    ensures LinearAfter(trunk, branches, pm, moves, removed) <==>
      Linear(Without(branches, removed), ParentsAfter(pm, moves, removed), trunk)
  {
    VerdictIs(trunk, branches, pm, moves, removed);
    forall m | m in moves ensures !Overridden(ParentsAfter(pm, moves, removed), m) {
      assert IsMover(moves, m.branch);
      ApplyMovesValue(Except(pm, removed), moves, m.branch);
    }
  }

  /** Neither the verdict on a batch nor its outcome depends on the order of its moves. */
  lemma MoveOrderIrrelevant(trunk: string, branches: seq<string>, pm: ParentMap, moves: seq<Move>, moves': seq<Move>,
      removed: seq<string>)
    requires OneTarget(moves) && forall m :: m in moves <==> m in moves'
    ensures ApplyMoves(pm, moves) == ApplyMoves(pm, moves')
    ensures LinearAfter(trunk, branches, pm, moves, removed) <==> LinearAfter(trunk, branches, pm, moves', removed)
  {
    forall b ensures b in ApplyMoves(pm, moves) <==> b in ApplyMoves(pm, moves')
      ensures b in ApplyMoves(pm, moves) ==> ApplyMoves(pm, moves)[b] == ApplyMoves(pm, moves')[b]
    {
      ApplyMovesValue(pm, moves, b);
      ApplyMovesValue(pm, moves', b);
    }
    assert forall b :: IsMover(moves, b) <==> IsMover(moves', b);
    assert forall p, c :: FinalEdge(branches, pm, moves, removed, p, c) <==>
      FinalEdge(branches, pm, moves', removed, p, c);
  }

  /** A batch that names one branch twice can be refused although it leaves a linear graph. */
  lemma RepeatedMoverRefused()
    ensures
      var branches, moves := ["t", "b", "x", "y", "z"], [Move("b", "x"), Move("b", "y")];
      !LinearAfter("t", branches, map["z" := "x"], moves, []) &&
        Linear(branches, ParentsAfter(map["z" := "x"], moves, []), "t")
  {
    var branches, moves := ["t", "b", "x", "y", "z"], [Move("b", "x"), Move("b", "y")];
    var pm: ParentMap := map["z" := "x"];
    assert branches[2] == "x" && branches[4] == "z" && moves[0] == Move("b", "x");
    assert FinalEdge(branches, pm, moves, [], "x", "b") && FinalEdge(branches, pm, moves, [], "x", "z");
    assert "b"[0] != "z"[0] && "x"[0] != "t"[0] && "x"[0] != "y"[0];
    assert moves[..1] == [moves[0]] && moves[..1][..0] == [];
    assert ApplyMoves(pm, moves[..1]) == map["z" := "x", "b" := "x"];
    assert Except(pm, []) == pm;
    assert ParentsAfter(pm, moves, []) == map["z" := "x", "b" := "y"];
  }

  /** Below trunk stand x and y, c on x and d on y. */
  function SwapParents(): ParentMap {
    map["x" := "t", "y" := "t", "c" := "x", "d" := "y"]
  }

  /** Swapping c and d leaves a linear graph, so the batch is accepted as a whole; judged alone in the graph as it
      stands, each of its moves is refused. */
  lemma SwapRefusedStepwise()
    ensures var branches, pm := ["t", "x", "y", "c", "d"], SwapParents();
      LinearAfter("t", branches, pm, [Move("c", "y"), Move("d", "x")], []) &&
      !LinearAfter("t", branches, pm, [Move("c", "y")], []) && !LinearAfter("t", branches, pm, [Move("d", "x")], [])
  {
    SwapIsLinear();
    assert "c"[0] != "d"[0] && "x"[0] != "t"[0] && "y"[0] != "t"[0];
    OntoOccupied(["t", "x", "y", "c", "d"], SwapParents(), "t", "c", "y", "d");
    OntoOccupied(["t", "x", "y", "c", "d"], SwapParents(), "t", "d", "x", "c");
  }

  /** One move onto a branch that has a child is refused. */
  lemma OntoOccupied(branches: seq<string>, pm: ParentMap, trunk: string, b: string, p: string, c: string)
    requires p != trunk && p != "" && c != b && GraphParent(branches, pm, c) == p
    ensures !LinearAfter(trunk, branches, pm, [Move(b, p)], [])
  {
    assert [Move(b, p)][0] == Move(b, p);
    assert FinalEdge(branches, pm, [Move(b, p)], [], p, b) && FinalEdge(branches, pm, [Move(b, p)], [], p, c);
  }

  lemma SwapIsLinear()
    ensures LinearAfter("t", ["t", "x", "y", "c", "d"], SwapParents(), [Move("c", "y"), Move("d", "x")], [])
  {
    var branches, moves := ["t", "x", "y", "c", "d"], [Move("c", "y"), Move("d", "x")];
    assert "c"[0] != "d"[0] && "x"[0] != "y"[0] && "x"[0] != "t"[0] && "y"[0] != "t"[0];
    forall p, c | FinalEdge(branches, SwapParents(), moves, [], p, c) && p != "t"
      ensures (p == "x" && c == "d") || (p == "y" && c == "c")
    {
      assert moves[0] in moves && moves[1] in moves;
    }
  }

  // ---------- Deleting from a linear forest ----------

  /** The moves a batch deletion makes: each surviving child of a deleted branch, to its nearest surviving ancestor. */
  ghost predicate DeletionMoves(pm: ParentMap, gone: set<string>, moves: seq<Move>) {
    && (forall m :: m in moves ==> m.branch in pm && m.branch !in gone && pm[m.branch] in gone &&
                                   IsNearest(pm, gone, pm[m.branch], m.newParent))
    && (forall b :: b in pm && b !in gone && pm[b] in gone ==> IsMover(moves, b))
  }

  /** c sits n steps below p with only deleted branches in between. */
  ghost predicate Hangs(pm: ParentMap, gone: set<string>, c: string, n: nat, p: string) {
    n >= 1 && c !in gone && Climb(pm, c, n) == p && forall i: nat :: 0 < i < n ==> Climb(pm, c, i) in gone
  }

  /** In a linear forest only one survivor hangs below a branch. */
  lemma {:induction false} OneHangs(branches: seq<string>, pm: ParentMap, trunk: string, gone: set<string>,
                                    c: string, n: nat, c': string, n': nat, p: string)
    requires Closed(branches, pm, trunk) && trunk !in pm && trunk !in gone && Linear(branches, pm, trunk)
    requires Hangs(pm, gone, c, n, p) && Hangs(pm, gone, c', n', p) && p != trunk && p != ""
    ensures c == c'
    decreases n
  {
    var x, x' := Climb(pm, c, n - 1), Climb(pm, c', n' - 1);
    ClimbStep(pm, c, n - 1);
    ClimbStep(pm, c', n' - 1);
    assert GraphParent(branches, pm, x) == p == GraphParent(branches, pm, x');
    assert x == x';
    if n > 1 && n' > 1 {
      OneHangs(branches, pm, trunk, gone, c, n - 1, c', n' - 1, x);
    }
  }

  lemma MoverHangs(pm: ParentMap, gone: set<string>, b: string, p: string) returns (n: nat)
    requires b in pm && b !in gone && pm[b] in gone && IsNearest(pm, gone, pm[b], p)
    ensures Hangs(pm, gone, b, n, p)
  {
    var k: nat :| FirstOutside(pm, gone, pm[b], k) && p == Climb(pm, pm[b], k);
    n := k + 1;
    assert forall i: nat :: 0 < i ==> Climb(pm, b, i) == Climb(pm, pm[b], i - 1);
  }

  lemma EdgeHangs(branches: seq<string>, pm: ParentMap, gone: set<string>, moves: seq<Move>, removed: seq<string>,
      p: string, c: string)
    returns (n: nat)
    requires DeletionMoves(pm, gone, moves) && forall b :: b in removed <==> b in gone
    requires FinalEdge(branches, pm, moves, removed, p, c)
    ensures Hangs(pm, gone, c, n, p)
  {
    if Move(c, p) in moves {
      n := MoverHangs(pm, gone, c, p);
    } else {
      n := 1;
      ClimbStep(pm, c, 0);
    }
  }

  /** The nearest survivor above a branch of a closed forest exists and is not deleted. */
  lemma TargetSurvives(branches: seq<string>, pm: ParentMap, trunk: string, gone: set<string>, b: string, p: string)
    requires Closed(branches, pm, trunk) && WellFormed(pm, trunk) && trunk !in gone
    requires b in pm && pm[b] in gone && IsNearest(pm, gone, pm[b], p)
    ensures p in branches && p !in gone && (p == trunk || p in pm)
  {
    DepthsRank(pm, trunk);
    var r := ForestNearest(pm, trunk, Depths(pm, trunk), gone, pm[b]);
    NearestUnique(pm, gone, pm[b], p, r);
  }

  /** Every batch deletion from a linear forest passes the validator. */
  lemma DeletionAccepted(branches: seq<string>, pm: ParentMap, trunk: string, gone: set<string>, moves: seq<Move>,
      removed: seq<string>)
    requires Closed(branches, pm, trunk) && WellFormed(pm, trunk) && Linear(branches, pm, trunk)
    requires trunk !in gone && (forall b :: b in removed <==> b in gone) && DeletionMoves(pm, gone, moves)
    ensures LinearAfter(trunk, branches, pm, moves, removed)
  {
    forall p, c, c' | p != trunk && FinalEdge(branches, pm, moves, removed, p, c) &&
      FinalEdge(branches, pm, moves, removed, p, c') ensures c == c'
    {
      var n := EdgeHangs(branches, pm, gone, moves, removed, p, c);
      var n' := EdgeHangs(branches, pm, gone, moves, removed, p, c');
      if Move(c, p) in moves { TargetSurvives(branches, pm, trunk, gone, c, p); }
      OneHangs(branches, pm, trunk, gone, c, n, c', n', p);
    }
  }

  // ---------- What a deletion leaves ----------

  /** pm' is pm without the deleted branches, every survivor under its nearest surviving ancestor. */
  ghost predicate DeletionResult(pm: ParentMap, gone: set<string>, pm': ParentMap) {
    pm'.Keys == pm.Keys - gone && forall b :: b in pm' ==> IsNearest(pm, gone, pm[b], pm'[b])
  }

  lemma MovesGiveResult(pm: ParentMap, trunk: string, gone: set<string>, moves: seq<Move>, removed: seq<string>)
    requires DeletionMoves(pm, gone, moves) && forall b :: b in removed <==> b in gone
    ensures DeletionResult(pm, gone, ParentsAfter(pm, moves, removed))
  {
    var pm' := ParentsAfter(pm, moves, removed);
    forall b ensures b in pm' <==> b in pm && b !in gone
      ensures b in pm' ==> IsNearest(pm, gone, pm[b], pm'[b])
    {
      ApplyMovesValue(Except(pm, removed), moves, b);
      if b in pm' && !IsMover(moves, b) { NearestStep(pm, gone, pm[b], pm'[b]); }
    }
  }

  /** Deleting any set of branches that spares trunk leaves a forest: every survivor hangs from trunk or a survivor and
      still reaches trunk. */
  lemma DeletionKeepsForest(branches: seq<string>, pm: ParentMap, trunk: string, gone: set<string>, pm': ParentMap)
    requires WellFormed(pm, trunk) && trunk !in gone && DeletionResult(pm, gone, pm')
    ensures WellFormed(pm', trunk) && forall b :: b in pm' ==> pm'[b] == trunk || pm'[b] in pm'
  {
    DepthsRank(pm, trunk);
    var rank := Depths(pm, trunk);
    forall b | b in pm' ensures pm'[b] == trunk || (pm'[b] in pm' && rank[pm'[b]] < rank[b]) {
      var r := ForestNearest(pm, trunk, rank, gone, pm[b]);
      NearestUnique(pm, gone, pm[b], r, pm'[b]);
    }
    assert Ranked(pm', trunk, rank);
    RankedWellFormed(pm', trunk, rank);
  }

  /** Removing branches and moving nothing keeps a graph linear. */
  lemma RemovalIsLinear(trunk: string, branches: seq<string>, pm: ParentMap, removed: seq<string>)
    requires Linear(branches, pm, trunk)
    ensures Linear(Without(branches, removed), ParentsAfter(pm, [], removed), trunk)
  {
    var bs, pm' := Without(branches, removed), ParentsAfter(pm, [], removed);
    assert forall b :: GraphParent(bs, pm', b) != "" ==> GraphParent(bs, pm', b) == GraphParent(branches, pm, b);
  }

  // ---------- Runs ----------

  /** The moves a deletion makes: every surviving child of the batch moves, and nothing else does. */
  ghost predicate MovesTheChildren(pm: ParentMap, batch: seq<string>, moves: seq<Move>) {
    (forall m :: m in moves ==> m.branch in pm && m.branch !in batch && pm[m.branch] in batch) &&
    (forall b :: b in pm && b !in batch && pm[b] in batch ==> IsMover(moves, b))
  }

  datatype Shape = Shape(branches: seq<string>, parents: ParentMap)

  datatype Op =
    | SetParentTo(branch: string, newParent: string)
    | ReparentBatch(moves: seq<Move>)
    | DeleteBatch(batch: seq<string>)

  /** What a successful operation does to the shape while the linear rule is on. */
  ghost predicate Step(trunk: string, s: Shape, op: Op, s': Shape) {
    match op
    case SetParentTo(b, p) => ReparentStep(trunk, s, [Move(b, p)], s')
    case ReparentBatch(moves) => ReparentStep(trunk, s, moves, s')
    case DeleteBatch(batch) => (batch == [] && s' == s) || exists moves :: DeleteStep(trunk, s, batch, moves, s')
  }

  ghost predicate ReparentStep(trunk: string, s: Shape, moves: seq<Move>, s': Shape) {
    (moves == [] || LinearAfter(trunk, s.branches, s.parents, moves, [])) &&
      s' == Shape(s.branches, ApplyMoves(s.parents, moves))
  }

  ghost predicate DeleteStep(trunk: string, s: Shape, batch: seq<string>, moves: seq<Move>, s': Shape) {
    MovesTheChildren(s.parents, batch, moves) &&
      (moves == [] || LinearAfter(trunk, s.branches, s.parents, moves, batch)) &&
    s' == Shape(Without(s.branches, batch), ParentsAfter(s.parents, moves, batch))
  }

  lemma WithoutNothing(branches: seq<string>, pm: ParentMap)
    ensures Without(branches, []) == branches && Except(pm, []) == pm
  {
    if branches != [] { WithoutNothing(branches[1..], pm); }
  }

  /** A deletion whose moves the validator let through is a step. */
  lemma DeletionSteps(trunk: string, s: Shape, batch: seq<string>, moves: seq<Move>, s': Shape)
    requires MovesTheChildren(s.parents, batch, moves)
    requires moves == [] || LinearAfter(trunk, s.branches, s.parents, moves, batch)
    requires s' == Shape(Without(s.branches, batch), ParentsAfter(s.parents, moves, batch))
    ensures Step(trunk, s, DeleteBatch(batch), s')
  {
    assert DeleteStep(trunk, s, batch, moves, s');
  }

  lemma StepKeepsLinear(trunk: string, s: Shape, op: Op, s': Shape)
    requires Step(trunk, s, op, s') && Linear(s.branches, s.parents, trunk)
    ensures Linear(s'.branches, s'.parents, trunk)
  {
    WithoutNothing(s.branches, s.parents);
    match op
    case SetParentTo(b, p) => AcceptedIsLinear(trunk, s.branches, s.parents, [Move(b, p)], []);
    case ReparentBatch(moves) =>
      if moves != [] { AcceptedIsLinear(trunk, s.branches, s.parents, moves, []); }
    case DeleteBatch(batch) =>
      if exists moves :: DeleteStep(trunk, s, batch, moves, s') {
        var moves :| DeleteStep(trunk, s, batch, moves, s');
        if moves == [] {
          RemovalIsLinear(trunk, s.branches, s.parents, batch);
        } else {
          AcceptedIsLinear(trunk, s.branches, s.parents, moves, batch);
        }
      }
  }

  /** Along any run of successful operations a linear forest stays linear. */
  lemma {:induction false} RunKeepsLinear(trunk: string, states: seq<Shape>, ops: seq<Op>, n: nat)
    requires |states| == |ops| + 1 && n <= |ops|
    requires forall i :: 0 <= i < |ops| ==> Step(trunk, states[i], ops[i], states[i + 1])
    requires Linear(states[0].branches, states[0].parents, trunk)
    ensures Linear(states[n].branches, states[n].parents, trunk)
  {
    if n > 0 {
      RunKeepsLinear(trunk, states, ops, n - 1);
      StepKeepsLinear(trunk, states[n - 1], ops[n - 1], states[n]);
    }
  }
}
