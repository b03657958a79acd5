/** Two loop trees that meet the assumptions in every state: a loop around two loops that write
    arrays, and one whose first inner loop holds a further loop. */
module TreeExample {
  import opened StencilIr
  import opened Interpret
  import opened VerifyTheorems
  import opened Invariant
  import opened Siblings
  import opened SiblingTables
  import opened SiblingCoverage
  import opened NestMeaning
  import opened Nest
  import opened LoopTrees
  import opened TreeTables
  import opened TreeMeaning
  import opened TreeRuns
  import opened TreeInvariants
  import opened TreeNecessity
  import opened Verify
  import E = SiblingExamples

  function Row(x: string): Exp { Bin(Bin(Num(3), Mul, Var("i")), Add, Var(x)) }

  // `for i in 0..3: { for j in 0..3: a[3 * i + j] = c[j] };  for k in 0..3: bb[3 * i + k] = c[k] }`
  const UPPER := Leaf("j", Num(0), Num(3), "a", Row("j"), Arr(Var("c"), Var("j")))
  const LOWER := Leaf("k", Num(0), Num(3), "bb", Row("k"), Arr(Var("c"), Var("k")))
  const PAIR := Node("i", Num(0), Num(3), [UPPER, LOWER])

  lemma Names()
    ensures "a" != "bb" && "a" != "c" && "bb" != "c" && "a" != "i" && "a" != "j" && "a" != "k"
    ensures "bb" != "i" && "bb" != "j" && "bb" != "k" && "c" != "i" && "c" != "j" && "c" != "k"
    ensures "i" != "j" && "i" != "k" && "j" != "k"
  {
    assert "a"[0] == 'a' && "bb"[0] == 'b' && "c"[0] == 'c' && "i"[0] == 'i' && "j"[0] == 'j' && "k"[0] == 'k';
  }

  lemma PairNodes()
    ensures Nodes(PAIR) == {PAIR, UPPER, LOWER} && Nodes(UPPER) == {UPPER} && Nodes(LOWER) == {LOWER}
    ensures TreeVars(PAIR) == {"i", "j", "k"} && Outs(PAIR) == {"a", "bb"}
    ensures TreeVars(UPPER) == {"j"} && TreeVars(LOWER) == {"k"}
  {
    assert PAIR.kids[0] == UPPER && PAIR.kids[1] == LOWER && |PAIR.kids| == 2;
    assert Nodes(UPPER) == {UPPER} && Nodes(LOWER) == {LOWER};
    forall u | u in Nodes(PAIR) ensures u == PAIR || u == UPPER || u == LOWER {
      if u != PAIR { var i :| 0 <= i < |PAIR.kids| && u in Nodes(PAIR.kids[i]); }
    }
    KidIn(PAIR, 0);
    KidIn(PAIR, 1);
  }

  lemma LeafLength(t: Tree)
    requires t.Leaf? && t.hi == Num(3)
    ensures |Key(t)| == 3 * |t.v| + |StmtToStr(Inner(t))| + 30
  {
    E.LoopLength(t.v, Inner(t));
    assert LoopOf(t) == E.Loop(t.v, Inner(t));
  }

  lemma PairTexts()
    ensures Key(UPPER) != Key(LOWER)
  {
    hide LoopKey, LoopOf, StmtToStr;
    LeafLength(UPPER);
    LeafLength(LOWER);
    WriteLengths();
  }

  lemma WriteLengths()
    ensures |StmtToStr(Inner(LOWER))| == |StmtToStr(Inner(UPPER))| + 1
  {
    hide LoopOf;
    RowLength("j");
    RowLength("k");
    assert TreeToStr(Arr(Var("a"), Row("j"))) == "a" + "[" + TreeToStr(Row("j")) + "]";
    assert TreeToStr(Arr(Var("bb"), Row("k"))) == "bb" + "[" + TreeToStr(Row("k")) + "]";
    assert TreeToStr(UPPER.rhs) == "c" + "[" + "j" + "]" && TreeToStr(LOWER.rhs) == "c" + "[" + "k" + "]";
  }

  lemma RowLength(x: string)
    ensures |TreeToStr(Row(x))| == |TreeToStr(Bin(Num(3), Mul, Var("i")))| + |x| + 5
  {
    assert TreeToStr(Var(x)) == x;
  }

  lemma PairDistinct()
    ensures DistinctLoops(Whole(PAIR))
  {
    hide LoopKey;
    PairTexts();
    LeafKeys(UPPER);
    LeafKeys(LOWER);
    var inner := Seq(Seq(Whole(UPPER), Start(LOWER)), LoopOf(LOWER));
    assert KidsStmt(PAIR, 1) == Whole(UPPER) && KidsStmt(PAIR, 2) == inner && Inner(PAIR) == inner;
    assert DistinctLoops(Whole(UPPER)) && DistinctLoops(Seq(Whole(UPPER), Start(LOWER))) && DistinctLoops(inner);
  }

  lemma LeafKeys(t: Tree)
    requires t.Leaf?
    ensures LoopKeys(LoopOf(t)) == {Key(t)} && DistinctLoops(LoopOf(t))
  {
    hide LoopKey;
    var body := LoopOf(t).body;
    assert DistinctLoops(body.init) && DistinctLoops(body.last);
    assert LoopKeys(body.init) == {} && LoopKeys(body.last) == {};
  }

  /** Such a tree is well formed, and no loop of it is missed by the generated invariants. */
  lemma PairIsWellFormed()
    ensures WellFormedTree(PAIR) && LeavesFirst(PAIR)
  {
    hide LoopKey, LoopOf, DistinctLoops, Nodes, TreeVars, Outs, WellScoped, VarsApart;
    Names();
    PairNodes();
    PairDistinct();
    PairScoped();
    PairApart();
    assert PAIR.kids[0] == UPPER && PAIR.kids[1] == LOWER;
  }

  lemma PairApart()
    ensures VarsApart(PAIR)
  {
    hide LoopKey, LoopOf, Nodes, TreeVars, Outs;
    Names();
    PairNodes();
    assert PAIR.kids[0] == UPPER && PAIR.kids[1] == LOWER;
    assert VarsApart(UPPER) && VarsApart(LOWER);
  }

  lemma PairScoped()
    ensures WellScoped(PAIR, {}, Changing(PAIR))
  {
    hide LoopKey, LoopOf, Nodes, TreeVars, Outs;
    PairNodes();
    LeavesScoped();
    assert PAIR.kids[0] == UPPER && PAIR.kids[1] == LOWER && |PAIR.kids| == 2;
    assert {} + {"i"} == {"i"};
    assert forall i | 0 <= i < |PAIR.kids| :: WellScoped(PAIR.kids[i], {"i"}, Changing(PAIR));
  }

  lemma LeavesScoped()
    ensures WellScoped(UPPER, {"i"}, Changing(PAIR)) && WellScoped(LOWER, {"i"}, Changing(PAIR))
    ensures Steady(Num(0), Changing(PAIR), {}) && Steady(Num(3), Changing(PAIR), {})
  {
    hide LoopKey, LoopOf, Nodes, TreeVars, Outs;
    Names();
    PairNodes();
    LeafVars("j");
    LeafVars("k");
  }

  lemma LeafVars(x: string)
    ensures Vars(Row(x)) == {"i", x} && Plain(Row(x)) && NoArrays(Row(x))
    ensures Vars(Arr(Var("c"), Var(x))) == {"c", x} && Plain(Arr(Var("c"), Var(x)))
  {
    var three := Bin(Num(3), Mul, Var("i"));
    assert Vars(three) == {"i"};
  }

  // ----- the assumptions hold in every state -----

  lemma RowValue(x: string, p: seq<Stmt>, env: string -> int, s: State, m: Model)
    requires Standard(m) && forall a, b :: m.bin(Mul, IntV(a), IntV(b)) == IntV(a * b)
    requires "i" in PathVarSet(p) && x in PathVarSet(p)
    ensures Eval(Row(x), PutAt(s, p, env), m) == IntV(3 * env("i") + env(x))
  {
    hide PutAt, PathVarSet, Eval;
    PutAtLookup(s, p, env, "i");
    PutAtLookup(s, p, env, x);
    var r := PutAt(s, p, env);
    var three := Bin(Num(3), Mul, Var("i"));
    LeafMeans(r, m);
    EvalVar("i", r, m);
    EvalVar(x, r, m);
    BinMeans(Num(3), Mul, Var("i"), r, m);
    BinMeans(three, Add, Var(x), r, m);
  }

  lemma LeafMeans(s: State, m: Model)
    ensures Eval(Num(3), s, m) == IntV(3)
  {
  }

  lemma BinMeans(l: Exp, op: Op, r: Exp, s: State, m: Model)
    requires op == Add || op == Mul
    ensures Eval(Bin(l, op, r), s, m) == m.bin(op, Eval(l, s, m), Eval(r, s, m))
  {
  }

  lemma KidNodes(i: nat)
    requires i < 2
    ensures PAIR.Node? && |PAIR.kids| == 2 && PAIR in Nodes(PAIR) && PAIR.kids[i] in Nodes(PAIR)
  {
    hide Nodes;
    PairNodes();
    assert PAIR.kids[0] == UPPER && PAIR.kids[1] == LOWER;
  }

  lemma LeafPath(g: Tables, i: nat)
    requires World(g, PAIR) && i < 2
    ensures InPlace(g, PAIR.kids[i]) && PathOf(g, Key(PAIR.kids[i])) == [LoopOf(PAIR), LoopOf(PAIR.kids[i])]
    ensures IterVar(LoopOf(PAIR)) == "i" && IterVar(LoopOf(PAIR.kids[i])) == PAIR.kids[i].v
  {
    hide LoopKey, LoopOf, World, Nodes, InPlace, PathOf, ProgramTables, Key;
    KidNodes(i);
    PlacesIn(g, PAIR);
    PlacesIn(g, PAIR.kids[i]);
    RootPath(g);
    PlaceKid(g, PAIR, i);
  }

  lemma RootPath(g: Tables)
    requires InPlace(g, PAIR) && g.containing[Key(PAIR)] == []
    ensures PathOf(g, Key(PAIR)) == [LoopOf(PAIR)]
  {
    hide LoopKey, LoopOf;
  }

  lemma PlacesIn(g: Tables, u: Tree)
    requires World(g, PAIR) && u in Nodes(PAIR)
    ensures ProgramTables(g) && InPlace(g, PAIR) && g.containing[Key(PAIR)] == [] && IterVar(LoopOf(u)) == u.v
  {
    hide LoopKey, LoopOf, World;
    WorldPlaces(g, PAIR, u);
  }

  lemma LeafIndex(g: Tables, i: nat, env: string -> int, s: State, m: Model)
    requires World(g, PAIR) && i < 2 && InPlace(g, PAIR.kids[i])
    requires Standard(m) && forall a, b :: m.bin(Mul, IntV(a), IntV(b)) == IntV(a * b)
    ensures IndexAt(g, PAIR.kids[i], env, s, m) == IntV(3 * env("i") + env(PAIR.kids[i].v))
  {
    hide LoopKey, LoopOf, World, PutAt, Eval, Row, Standard;
    LeafPath(g, i);
    assert PAIR.kids[0] == UPPER && PAIR.kids[1] == LOWER;
    var p := PathOf(g, Key(PAIR.kids[i]));
    assert IterVar(p[0]) == "i" && IterVar(p[1]) == PAIR.kids[i].v;
    RowValue(PAIR.kids[i].v, p, env, s, m);
  }

  lemma LeafBounds(g: Tables, i: nat, env: string -> int, s: State, m: Model)
    requires World(g, PAIR) && WellFormedTables(g) && i < 2 && InPlace(g, PAIR.kids[i])
    requires IsIteration(g, Key(PAIR.kids[i]), env, s, m)
    ensures 0 <= env(PAIR.kids[i].v) < 3
  {
    hide LoopKey, LoopOf, World, WellFormedTables;
    PairNodes();
    assert PAIR.kids[0] == UPPER && PAIR.kids[1] == LOWER;
    LeafPath(g, i);
    PairBounds(g, PAIR.kids[i]);
    assert IterVar(PathOf(g, Key(PAIR.kids[i]))[1]) == PAIR.kids[i].v;
  }

  lemma PairBounds(g: Tables, u: Tree)
    requires World(g, PAIR) && u in Nodes(PAIR)
    ensures u.v in g.nesting && u.v in g.mins && u.v in g.maxs && g.mins[u.v] == Num(0) && g.maxs[u.v] == Num(3)
  {
    hide LoopKey, LoopOf, World;
    PairNodes();
    WorldBounds(g, PAIR, u);
  }

  lemma WhichLeaf(u: Tree) returns (i: nat)
    requires u in Nodes(PAIR) && u.Leaf?
    ensures i < 2 && u == PAIR.kids[i]
  {
    hide Nodes;
    PairNodes();
    assert PAIR.kids[0] == UPPER && PAIR.kids[1] == LOWER;
    i := if u == UPPER then 0 else 1;
  }

  lemma Injective(g: Tables, u: Tree, env: string -> int, env': string -> int, s: State, m: Model)
    requires World(g, PAIR) && WellFormedTables(g) && u in Nodes(PAIR) && u.Leaf? && InPlace(g, u)
    requires Standard(m) && forall a, b :: m.bin(Mul, IntV(a), IntV(b)) == IntV(a * b)
    requires IsIteration(g, Key(u), env, s, m) && IsIteration(g, Key(u), env', s, m)
    requires Differ(PathOf(g, Key(u)), env, env')
    ensures IndexAt(g, u, env, s, m) != IndexAt(g, u, env', s, m)
  {
    hide LoopKey, LoopOf, World, WellFormedTables, IndexAt, IsIteration, PathOf, Nodes, InPlace, Standard;
    var i := WhichLeaf(u);
    LeafIndex(g, i, env, s, m);
    LeafIndex(g, i, env', s, m);
    LeafBounds(g, i, env, s, m);
    LeafBounds(g, i, env', s, m);
    LeafPath(g, i);
  }

  lemma Bounds(u: Tree, s: State, m: Model)
    requires u in Nodes(PAIR)
    ensures Eval(u.lo, s, m) == IntV(0) && Eval(u.hi, s, m) == IntV(3)
  {
    hide Nodes;
    PairNodes();
  }

  /** In every state, and for every meaning of `+`, `*` and `<` that is the usual one on integers. */
  lemma PairAssumed(g: Tables, s: State, m: Model)
    requires World(g, PAIR) && WellFormedTables(g)
    requires Standard(m) && forall a, b :: m.bin(Mul, IntV(a), IntV(b)) == IntV(a * b)
    ensures AssumedIn(g, PAIR, s, m)
  {
    hide LoopKey, LoopOf, World, WellFormedTables, IndexAt, IsIteration, PathOf, Nodes, Differ, Standard, Eval;
    forall u | u in Nodes(PAIR) ensures Eval(u.lo, s, m) == IntV(0) && Eval(u.hi, s, m) == IntV(3) {
      Bounds(u, s, m);
    }
    forall u, env | u in Nodes(PAIR) && u.Leaf? && InPlace(g, u) ensures IndexAt(g, u, env, s, m).IntV? {
      var i := WhichLeaf(u);
      LeafIndex(g, i, env, s, m);
    }
    forall u, env, env' | u in Nodes(PAIR) && u.Leaf? && InPlace(g, u) && IsIteration(g, Key(u), env, s, m)
        && IsIteration(g, Key(u), env', s, m) && Differ(PathOf(g, Key(u)), env, env')
      ensures IndexAt(g, u, env, s, m) != IndexAt(g, u, env', s, m)
    {
      Injective(g, u, env, env', s, m);
    }
  }

  // ----- a loop inside an earlier sibling -----

  const DEEP := Leaf("k", Num(0), Num(3), "a", E.A_CELL, Num(1))
  const MIDDLE := Node("j", Num(0), Num(3), [DEEP])
  const BESIDE := Leaf("l", Num(0), Num(3), "b", E.B_CELL, Num(1))
  const BRANCHED := Node("i", Num(0), Num(3), [MIDDLE, BESIDE])

  lemma MoreNames()
    ensures "a" != "b" && "a" != "i" && "a" != "j" && "a" != "k" && "a" != "l"
    ensures "b" != "i" && "b" != "j" && "b" != "k" && "b" != "l"
    ensures "i" != "j" && "i" != "k" && "i" != "l" && "j" != "k" && "j" != "l" && "k" != "l"
  {
    assert "a"[0] == 'a' && "b"[0] == 'b' && "i"[0] == 'i' && "j"[0] == 'j' && "k"[0] == 'k' && "l"[0] == 'l';
  }

  lemma BranchedKids()
    ensures MIDDLE.kids[0] == DEEP && |MIDDLE.kids| == 1
    ensures BRANCHED.kids[0] == MIDDLE && BRANCHED.kids[1] == BESIDE && |BRANCHED.kids| == 2
  {
  }

  lemma BranchedNodes()
    ensures Nodes(DEEP) == {DEEP} && Nodes(BESIDE) == {BESIDE} && Nodes(MIDDLE) == {MIDDLE, DEEP}
    ensures Nodes(BRANCHED) == {BRANCHED, MIDDLE, DEEP, BESIDE}
  {
    BranchedKids();
    assert Nodes(DEEP) == {DEEP} && Nodes(BESIDE) == {BESIDE};
    OneKid(MIDDLE);
    forall u | u in Nodes(BRANCHED) ensures u == BRANCHED || u in Nodes(MIDDLE) || u == BESIDE {
      if u != BRANCHED { var i :| 0 <= i < |BRANCHED.kids| && u in Nodes(BRANCHED.kids[i]); }
    }
    KidIn(BRANCHED, 0);
    KidIn(BRANCHED, 1);
  }

  lemma OneKid(t: Tree)
    requires t.Node? && |t.kids| == 1
    ensures Nodes(t) == {t} + Nodes(t.kids[0])
  {
    KidIn(t, 0);
  }

  lemma BranchedVars()
    ensures TreeVars(DEEP) == {"k"} && TreeVars(BESIDE) == {"l"} && TreeVars(MIDDLE) == {"j", "k"}
    ensures TreeVars(BRANCHED) == {"i", "j", "k", "l"} && Outs(BRANCHED) == {"a", "b"}
  {
    hide Nodes;
    BranchedNodes();
  }

  /** It is the program of the second example. */
  lemma BranchedIsNested()
    ensures Whole(BRANCHED) == E.NESTED && DistinctLoops(Whole(BRANCHED))
  {
    hide LoopKey, DistinctLoops, LoopOf, KidsStmt, E.Loop;
    BranchedKids();
    LeafLoop(DEEP);
    LeafLoop(BESIDE);
    NodeLoop(MIDDLE);
    NodeLoop(BRANCHED);
    KidsAre(MIDDLE, 1);
    KidsAre(BRANCHED, 1);
    KidsAre(BRANCHED, 2);
    assert LoopOf(DEEP) == E.DEEP && LoopOf(BESIDE) == E.LOWER;
    assert LoopOf(MIDDLE) == E.UPPER;
    assert KidsStmt(BRANCHED, 2) == E.BLOCK;
    E.NestedShape();
  }

  lemma LeafLoop(t: Tree)
    requires t.Leaf? && t.hi == Num(3)
    ensures LoopOf(t) == E.Loop(t.v, AssignArr(t.out, t.idx, t.rhs))
  {
  }

  lemma NodeLoop(t: Tree)
    requires t.Node? && t.kids != [] && t.hi == Num(3)
    ensures LoopOf(t) == E.Loop(t.v, KidsStmt(t, |t.kids|))
  {
    hide KidsStmt;
  }

  lemma KidsAre(t: Tree, n: nat)
    requires t.Node? && 0 < n <= |t.kids|
    ensures KidsStmt(t, n) == Seq(if n == 1 then Start(t.kids[0]) else Seq(KidsStmt(t, n - 1), Start(t.kids[n - 1])),
                                  LoopOf(t.kids[n - 1]))
  {
    hide LoopOf;
  }

  lemma CellVars()
    ensures Vars(E.A_CELL) == {"i", "j", "k"} && Vars(E.B_CELL) == {"i", "l"}
    ensures Plain(E.A_CELL) && NoArrays(E.A_CELL) && Plain(E.B_CELL) && NoArrays(E.B_CELL)
  {
    var i, j := E.Scaled(9, "i"), E.Scaled(3, "j");
    assert Vars(i) == {"i"} && Vars(j) == {"j"} && Vars(E.Scaled(3, "i")) == {"i"};
    assert Vars(Bin(i, Add, j)) == {"i", "j"};
  }

  lemma BranchedScoped()
    ensures WellScoped(BRANCHED, {}, Changing(BRANCHED)) && VarsApart(BRANCHED)
  {
    hide LoopKey, LoopOf, Nodes, TreeVars, Outs, Vars, Plain, NoArrays, VarsApart, WellScoped;
    NumbersSteady(Changing(BRANCHED));
    LeavesOfBranched(Changing(BRANCHED));
    ScopedNode(MIDDLE, {"i"}, Changing(BRANCHED));
    ScopedNode(BRANCHED, {}, Changing(BRANCHED));
    BranchedApart();
  }

  lemma NumbersSteady(changing: set<string>)
    ensures Steady(Num(0), changing, {}) && Steady(Num(3), changing, {}) && Steady(Num(1), changing, {})
  {
  }

  lemma LeavesOfBranched(changing: set<string>)
    ensures WellScoped(DEEP, {"i", "j"}, changing) && WellScoped(BESIDE, {"i"}, changing)
  {
    CellVars();
    NumbersSteady(changing);
  }

  lemma ScopedNode(t: Tree, outer: set<string>, changing: set<string>)
    requires (t == MIDDLE && outer == {"i"}) || (t == BRANCHED && outer == {})
    requires WellScoped(DEEP, {"i", "j"}, changing) && WellScoped(BESIDE, {"i"}, changing)
    requires t == BRANCHED ==> WellScoped(MIDDLE, {"i"}, changing)
    requires Steady(Num(0), changing, {}) && Steady(Num(3), changing, {})
    ensures WellScoped(t, outer, changing)
  {
    hide Steady;
    BranchedKids();
    assert {} + {"i"} == {"i"} && {"i"} + {"j"} == {"i", "j"};
    assert forall i | 0 <= i < |t.kids| :: WellScoped(t.kids[i], outer + {t.v}, changing);
  }

  lemma BranchedApart()
    ensures VarsApart(BRANCHED)
  {
    hide LoopKey, LoopOf, Nodes, TreeVars, Outs;
    MoreNames();
    BranchedKids();
    BranchedVars();
    assert VarsApart(DEEP) && VarsApart(BESIDE);
    assert VarsApart(MIDDLE);
  }

  lemma BranchedIsWellFormed()
    ensures WellFormedTree(BRANCHED) && !LeavesFirst(BRANCHED)
  {
    hide LoopKey, LoopOf, DistinctLoops, Nodes, TreeVars, Outs, WellScoped, VarsApart, Whole;
    MoreNames();
    BranchedKids();
    BranchedNodes();
    BranchedVars();
    BranchedScoped();
    BranchedIsNested();
  }

  // its assumptions

  lemma PathsOfBranched(g: Tables)
    requires World(g, BRANCHED)
    ensures InPlace(g, DEEP) && PathOf(g, Key(DEEP)) == [LoopOf(BRANCHED), LoopOf(MIDDLE), LoopOf(DEEP)]
    ensures InPlace(g, BESIDE) && PathOf(g, Key(BESIDE)) == [LoopOf(BRANCHED), LoopOf(BESIDE)]
  {
    hide LoopKey, LoopOf, World, Nodes, Key, PathOf;
    BranchedKids();
    BranchedNodes();
    WorldPlaces(g, BRANCHED, BRANCHED);
    RootPathOf(g, BRANCHED);
    PlaceKid(g, BRANCHED, 0);
    PlaceKid(g, BRANCHED, 1);
    PlaceKid(g, MIDDLE, 0);
  }

  lemma RootPathOf(g: Tables, t: Tree)
    requires InPlace(g, t) && g.containing[Key(t)] == []
    ensures PathOf(g, Key(t)) == [LoopOf(t)]
  {
    hide LoopKey, LoopOf;
  }

  lemma VarsOfBranched()
    ensures IterVar(LoopOf(BRANCHED)) == "i" && IterVar(LoopOf(MIDDLE)) == "j"
    ensures IterVar(LoopOf(DEEP)) == "k" && IterVar(LoopOf(BESIDE)) == "l"
  {
  }

  ghost predicate Multiplies(m: Model) { forall a, b :: m.bin(Mul, IntV(a), IntV(b)) == IntV(a * b) }

  lemma ScaledValue(n: int, x: string, p: seq<Stmt>, env: string -> int, s: State, m: Model)
    requires Multiplies(m) && x in PathVarSet(p)
    ensures Eval(E.Scaled(n, x), PutAt(s, p, env), m) == IntV(n * env(x))
    ensures Eval(Var(x), PutAt(s, p, env), m) == IntV(env(x))
  {
    hide PutAt, PathVarSet;
    PutAtLookup(s, p, env, x);
    var r := PutAt(s, p, env);
    assert Eval(Num(n), r, m) == IntV(n) && Eval(Var(x), r, m) == IntV(env(x));
  }

  lemma SumValue(l: Exp, r: Exp, a: int, b: int, s: State, m: Model)
    requires Standard(m) && Eval(l, s, m) == IntV(a) && Eval(r, s, m) == IntV(b)
    ensures Eval(Bin(l, Add, r), s, m) == IntV(a + b)
  {
    BinMeans(l, Add, r, s, m);
  }

  lemma CellValues(p: seq<Stmt>, env: string -> int, s: State, m: Model)
    requires Standard(m) && Multiplies(m) && "i" in PathVarSet(p)
    ensures "j" in PathVarSet(p) && "k" in PathVarSet(p) ==>
      Eval(E.A_CELL, PutAt(s, p, env), m) == IntV(9 * env("i") + 3 * env("j") + env("k"))
    ensures "l" in PathVarSet(p) ==> Eval(E.B_CELL, PutAt(s, p, env), m) == IntV(3 * env("i") + env("l"))
  {
    hide PutAt, PathVarSet, Eval, E.Scaled, Standard, Multiplies;
    var r := PutAt(s, p, env);
    ScaledValue(9, "i", p, env, s, m);
    ScaledValue(3, "i", p, env, s, m);
    if "j" in PathVarSet(p) && "k" in PathVarSet(p) {
      ScaledValue(3, "j", p, env, s, m);
      ScaledValue(3, "k", p, env, s, m);
      SumValue(E.Scaled(9, "i"), E.Scaled(3, "j"), 9 * env("i"), 3 * env("j"), r, m);
      SumValue(Bin(E.Scaled(9, "i"), Add, E.Scaled(3, "j")), Var("k"), 9 * env("i") + 3 * env("j"), env("k"), r, m);
    }
    if "l" in PathVarSet(p) {
      ScaledValue(3, "l", p, env, s, m);
      SumValue(E.Scaled(3, "i"), Var("l"), 3 * env("i"), env("l"), r, m);
    }
  }

  /** The values of the loop variables and of the index, for an iteration of a leaf. */
  lemma BranchedIndex(g: Tables, u: Tree, env: string -> int, s: State, m: Model)
    requires World(g, BRANCHED) && (u == DEEP || u == BESIDE) && InPlace(g, u) && Standard(m) && Multiplies(m)
    ensures IndexAt(g, u, env, s, m) == IntV(if u == DEEP then 9 * env("i") + 3 * env("j") + env("k")
                                             else 3 * env("i") + env("l"))
  {
    hide LoopKey, LoopOf, World, PutAt, Eval, Standard, Multiplies;
    PathsOfBranched(g);
    VarsOfBranched();
    var p := PathOf(g, Key(u));
    assert IterVar(p[0]) == "i" && IterVar(p[1]) == if u == DEEP then "j" else "l";
    if u == DEEP { assert IterVar(p[2]) == "k"; }
    CellValues(p, env, s, m);
  }

  lemma BranchedRange(g: Tables, u: Tree, env: string -> int, s: State, m: Model)
    requires World(g, BRANCHED) && WellFormedTables(g) && (u == DEEP || u == BESIDE) && InPlace(g, u)
    requires IsIteration(g, Key(u), env, s, m)
    ensures if u == DEEP then 0 <= env("i") < 3 && 0 <= env("j") < 3 && 0 <= env("k") < 3
      else 0 <= env("i") < 3 && 0 <= env("l") < 3
  {
    hide LoopKey, LoopOf, World, WellFormedTables, Nodes, PathOf;
    PathsOfBranched(g);
    VarsOfBranched();
    BranchedBounds(g);
    var p := PathOf(g, Key(u));
    assert IterVar(p[0]) == "i" && IterVar(p[1]) == if u == DEEP then "j" else "l";
    if u == DEEP { assert IterVar(p[2]) == "k"; }
  }

  lemma BranchedBounds(g: Tables)
    requires World(g, BRANCHED)
    ensures forall v | v == "i" || v == "j" || v == "k" || v == "l" ::
      v in g.nesting && v in g.mins && v in g.maxs && g.mins[v] == Num(0) && g.maxs[v] == Num(3)
  {
    hide LoopKey, LoopOf, World, Nodes;
    BranchedNodes();
    WorldBounds(g, BRANCHED, BRANCHED);
    WorldBounds(g, BRANCHED, MIDDLE);
    WorldBounds(g, BRANCHED, DEEP);
    WorldBounds(g, BRANCHED, BESIDE);
  }

  lemma BranchedInjective(g: Tables, u: Tree, env: string -> int, env': string -> int, s: State, m: Model)
    requires World(g, BRANCHED) && WellFormedTables(g) && (u == DEEP || u == BESIDE) && InPlace(g, u)
    requires Standard(m) && Multiplies(m)
    requires IsIteration(g, Key(u), env, s, m) && IsIteration(g, Key(u), env', s, m)
    requires Differ(PathOf(g, Key(u)), env, env')
    ensures IndexAt(g, u, env, s, m) != IndexAt(g, u, env', s, m)
  {
    hide LoopKey, LoopOf, World, WellFormedTables, IndexAt, IsIteration, PathOf, InPlace, Standard, Multiplies;
    BranchedIndex(g, u, env, s, m);
    BranchedIndex(g, u, env', s, m);
    BranchedRange(g, u, env, s, m);
    BranchedRange(g, u, env', s, m);
    PathsOfBranched(g);
    VarsOfBranched();
  }

  lemma BranchedAssumed(g: Tables, s: State, m: Model)
    requires World(g, BRANCHED) && WellFormedTables(g) && Standard(m) && Multiplies(m)
    ensures AssumedIn(g, BRANCHED, s, m)
  {
    hide LoopKey, LoopOf, World, WellFormedTables, IndexAt, IsIteration, PathOf, Nodes, Differ, Standard, Multiplies;
    BranchedNodes();
    assert Eval(Num(0), s, m) == IntV(0) && Eval(Num(3), s, m) == IntV(3);
    forall u, env | u in Nodes(BRANCHED) && u.Leaf? && InPlace(g, u) ensures IndexAt(g, u, env, s, m).IntV? {
      BranchedIndex(g, u, env, s, m);
    }
    forall u, env, env' | u in Nodes(BRANCHED) && u.Leaf? && InPlace(g, u) && IsIteration(g, Key(u), env, s, m)
        && IsIteration(g, Key(u), env', s, m) && Differ(PathOf(g, Key(u)), env, env')
      ensures IndexAt(g, u, env, s, m) != IndexAt(g, u, env', s, m)
    {
      BranchedInjective(g, u, env, env', s, m);
    }
  }

  /** For this program the generated invariants make the conditions valid exactly when variables
      without a range are free. */
  lemma BranchedDependsOnReading(m: Model)
    returns (g: Tables, infos: map<string, Info>, previous: map<string, seq<string>>)
    requires Standard(m) && Multiplies(m)
    ensures World(g, BRANCHED) && WellFormedTables(g) && GeneratedInfos(g, infos, previous)
    ensures forall invs, q, free | ReadsIn(g, BRANCHED, infos, invs, free, m) && KeyVars(q) == {}
        && (forall s | AssumedIn(g, BRANCHED, s, m) && AllDoneIn(g, BRANCHED, s, m) :: Holds(q, s, m)) ::
      && Wp(Whole(BRANCHED), q, invs, false).Some?
      && (AllValid(Wp(Whole(BRANCHED), q, invs, false).value.conds, AdmissibleIn(g, BRANCHED, m), m) <==> free)
  {
    hide LoopKey, LoopOf, World, WellFormedTables, Nodes, AssumedIn, AllDoneIn, WellFormedTree, Standard, Holds, Wp,
      GeneratedInfos, ReadsIn, KeyVars, Whole, LeavesFirst, AllValid, Multiplies, AdmissibleIn;
    BranchedIsWellFormed();
    g := WorldExists(BRANCHED);
    WorldTables(g, BRANCHED);
    infos, previous := GeneratedInfosExist(g, TreeVars(BRANCHED));
    BranchedAssumed(g, map[], m);
    forall invs, q, free | ReadsIn(g, BRANCHED, infos, invs, free, m) && KeyVars(q) == {}
        && (forall s | AssumedIn(g, BRANCHED, s, m) && AllDoneIn(g, BRANCHED, s, m) :: Holds(q, s, m))
      ensures Wp(Whole(BRANCHED), q, invs, false).Some?
      ensures AllValid(Wp(Whole(BRANCHED), q, invs, false).value.conds, AdmissibleIn(g, BRANCHED, m), m) <==> free
    {
      DischargeIff(g, BRANCHED, infos, previous, invs, q, free, map[], m);
    }
  }
}
