/** Two programs with executed iterations that the generated invariants miss: one in any case, the
    other when variables without a range are not left free. */
module SiblingExamples {
  import opened StencilIr
  import opened Interpret
  import opened VerifyTheorems
  import opened Termination
  import opened Invariant
  import opened Siblings
  import opened SiblingTables
  import opened SiblingCoverage

  /** `while (v < 3) { c; v = v + 1 }` */
  function Loop(v: string, c: Stmt): Stmt { While(v, Bin(Var(v), Lt, Num(3)), Seq(c, Incr(v))) }

  function Put(a: string, idx: Exp): Stmt { AssignArr(a, idx, Num(1)) }

  function Zero(v: string): Stmt { AssignVar(v, Num(0)) }

  function Sum(x: string, y: string): Exp { Bin(Var(x), Add, Var(y)) }

  /** The length of a loop's text. */
  lemma LoopLength(v: string, c: Stmt)
    ensures |LoopKey(Loop(v, c))| == 3 * |v| + |StmtToStr(c)| + 30
  {
    var w := Loop(v, c);
    assert TreeToStr(Var(v)) == v && IntToStr(3) == NatToStr(3) && |NatToStr(3)| == 1 && |NatToStr(1)| == 1;
    assert |TreeToStr(w.test)| == |v| + 6;
    assert |TreeToStr(Bin(Var(v), Add, Num(1)))| == |v| + 6;
    assert |StmtToStr(Incr(v))| == 2 * |v| + 9;
    assert StmtToStr(w) == "while (" + TreeToStr(w.test) + ") do {" + StmtToStr(w.body) + "}";
    assert StmtToStr(w.body) == StmtToStr(c) + "\n" + StmtToStr(Incr(v));
  }

  lemma PutLength(a: string, idx: Exp)
    ensures |StmtToStr(Put(a, idx))| == |a| + |TreeToStr(idx)| + 6
  {
    assert |IntToStr(1)| == 1;
    assert TreeToStr(Arr(Var(a), idx)) == a + "[" + TreeToStr(idx) + "]";
  }

  lemma SumLength(x: string, y: string)
    ensures |TreeToStr(Sum(x, y))| == |x| + |y| + 5
  {
  }

  // ----- an earlier loop of the outermost block -----

  // `i = 0; while i { a[i] = 1 }; j = 0; while j { b[i + j] = 1 }`
  const FIRST := Loop("i", Put("a", Var("i")))
  const SECOND := Loop("j", Put("b", Sum("i", "j")))
  const TWO := Seq(Seq(Seq(Zero("i"), FIRST), Zero("j")), SECOND)

  lemma TwoTexts()
    ensures LoopKey(FIRST) != LoopKey(SECOND)
  {
    hide LoopKey, StmtToStr;
    LoopLength("i", Put("a", Var("i")));
    LoopLength("j", Put("b", Sum("i", "j")));
    PutLength("a", Var("i"));
    PutLength("b", Sum("i", "j"));
    SumLength("i", "j");
    assert TreeToStr(Var("i")) == "i";
  }

  lemma Leaf(c: Stmt)
    requires c.AssignVar? || c.AssignArr?
    ensures LoopKeys(c) == {} && DistinctLoops(c) && LoopsByKey(c) == map[] && Flatten(c) == [c]
  {
  }

  lemma Pair(c1: Stmt, c2: Stmt)
    ensures var c := Seq(c1, c2);
      && LoopKeys(c) == LoopKeys(c1) + LoopKeys(c2)
      && (DistinctLoops(c) <==> LoopKeys(c1) !! LoopKeys(c2) && DistinctLoops(c1) && DistinctLoops(c2))
      && LoopsByKey(c) == LoopsByKey(c1) + LoopsByKey(c2)
      && Flatten(c) == Flatten(c1) + Flatten(c2)
  {
    hide LoopKey;
  }

  lemma Single(v: string, c: Stmt)
    ensures var w := Loop(v, c);
      && LoopKeys(w) == {LoopKey(w)} + LoopKeys(c) && (DistinctLoops(w) <==> DistinctLoops(c))
      && LoopsByKey(w) == map[LoopKey(w) := w] + LoopsByKey(c)
      && Flatten(w) == [w] && Flatten(w.body) == Flatten(c) + [Incr(v)]
  {
    hide LoopKey;
    var w := Loop(v, c);
    Leaf(Incr(v));
    Pair(c, Incr(v));
    assert LoopsByKey(w) == map[LoopKey(w) := w] + LoopsByKey(w.body);
  }

  lemma TwoShape()
    ensures DistinctLoops(TWO) && LoopsByKey(TWO) == map[LoopKey(FIRST) := FIRST, LoopKey(SECOND) := SECOND]
    ensures Flatten(TWO) == [Zero("i"), FIRST, Zero("j"), SECOND] && FIRST.While? && SECOND.While?
  {
    hide LoopKey, LoopKeys, DistinctLoops, LoopsByKey, Flatten;
    TwoTexts();
    Leaf(Put("a", Var("i")));
    Leaf(Put("b", Sum("i", "j")));
    Single("i", Put("a", Var("i")));
    Single("j", Put("b", Sum("i", "j")));
    Leaf(Zero("i"));
    Leaf(Zero("j"));
    Pair(Zero("i"), FIRST);
    Pair(Seq(Zero("i"), FIRST), Zero("j"));
    Pair(Seq(Seq(Zero("i"), FIRST), Zero("j")), SECOND);
  }

  // ----- tables of such programs -----

  /** Every loop counts from 0 to 3. */
  ghost predicate FromZero(c: Stmt) {
    forall v | v in LoopVarsOf(LoopsByKey(c)) :: FindInit(c, v) == Some(Num(0)) && FindMax(c, v) == Some(Num(3))
  }

  lemma TablesFor(c: Stmt) returns (g: Tables, infos: map<string, Info>, previous: map<string, seq<string>>)
    requires DistinctLoops(c) && DistinctVars(c) && FromZero(c)
    ensures TablesOf(g, c, LoopVarsOf(LoopsByKey(c))) && Setup(g, LoopVarsOf(LoopsByKey(c)))
    ensures GeneratedInfos(g, infos, previous)
    ensures forall v | v in g.nesting :: v in g.mins && v in g.maxs && g.mins[v] == Num(0) && g.maxs[v] == Num(3)
  {
    hide LoopKey, LoopsByKey, Containing, DistinctLoops, DistinctVars, FindInit, FindMax, WellFormedTables, IsNesting,
      GeneratedInfos, IterVar;
    var vs := LoopVarsOf(LoopsByKey(c));
    g := SetupExists(c, map v | v in vs :: FindInit(c, v).value, map v | v in vs :: FindMax(c, v).value);
    infos, previous := GeneratedInfosExist(g, vs);
    KeysOfNesting(g, vs);
  }

  lemma KeysOfNesting(g: Tables, vs: set<string>)
    requires IsNesting(g.nesting, vs, g.loops, g.containing)
    ensures g.nesting.Keys == vs
  {
    hide IterVar;
  }

  lemma ZeroIteration(g: Tables, x: string, s: State, m: Model)
    requires WellFormedTables(g) && x in g.loops
    requires forall v | v in g.nesting :: v in g.mins && v in g.maxs && g.mins[v] == Num(0) && g.maxs[v] == Num(3)
    ensures IsIteration(g, x, _ => 0, s, m)
  {
    hide PathOf, IterVar;
    assert Eval(Num(0), s, m) == IntV(0) && Eval(Num(3), s, m) == IntV(3);
  }

  lemma TwoBounds()
    ensures FromZero(TWO) && DistinctVars(TWO)
  {
    hide LoopKey, LoopsByKey, DistinctLoops, Flatten, LoopKeys;
    TwoShape();
    TwoFinds();
    assert FIRST.iterVar == "i" && SECOND.iterVar == "j";
    TwoTexts();
  }

  lemma TwoFinds()
    ensures forall v | v == "i" || v == "j" :: FindInit(TWO, v) == Some(Num(0)) && FindMax(TWO, v) == Some(Num(3))
  {
    assert "i"[0] == 'i' && "j"[0] == 'j';
    forall v | v == "i" || v == "j" ensures FindInit(TWO, v) == Some(Num(0)) && FindMax(TWO, v) == Some(Num(3)) {
      Finds("i", Put("a", Var("i")), v);
      Finds("j", Put("b", Sum("i", "j")), v);
      assert TWO.init == Seq(Seq(Zero("i"), FIRST), Zero("j")) && TWO.init.init == Seq(Zero("i"), FIRST);
      FindsPair(TWO.init.init, v);
      FindsPair(TWO.init, v);
      FindsPair(TWO, v);
    }
  }

  lemma FindsPair(c: Stmt, v: string)
    requires c.Seq?
    ensures FindInit(c, v) == if FindInit(c.last, v).Some? then FindInit(c.last, v) else FindInit(c.init, v)
    ensures FindMax(c, v) == if FindMax(c.last, v).Some? then FindMax(c.last, v) else FindMax(c.init, v)
  {
  }

  lemma Finds(u: string, c: Stmt, v: string)
    ensures FindInit(Loop(u, c), v) == FindInit(c, v)
    ensures FindMax(Loop(u, c), v)
      == if FindMax(c, v).Some? then FindMax(c, v) else if u == v then Some(Num(3)) else None
    ensures FindInit(Zero(u), v) == (if u == v then Some(Num(0)) else None) && FindMax(Zero(u), v) == None
  {
    var w := Loop(u, c);
    assert u in Vars(Incr(u).rval);
    FindsPair(w.body, v);
  }

  /** At the head of the second loop, all iterations of the first have been executed, and no clause
      about the array it writes describes the iteration `i = 0`. */
  lemma TopLevelLoopIsMissed(m: Model)
    returns (g: Tables, infos: map<string, Info>, previous: map<string, seq<string>>, s: State, env: string -> int)
    requires Standard(m)
    ensures TablesOf(g, TWO, LoopVarsOf(LoopsByKey(TWO))) && WellFormedTables(g) && GeneratedInfos(g, infos, previous)
    ensures LoopKey(FIRST) in g.loops && LoopKey(SECOND) in g.loops
    ensures Writes(g, "a", LoopKey(FIRST)) && IsIteration(g, LoopKey(FIRST), env, s, m)
    ensures Executed(g, LoopKey(FIRST), LoopKey(SECOND), env, s)
    ensures forall free :: !IsDescribed(g, infos, "a", LoopKey(FIRST), LoopKey(SECOND), env, free, s, m)
  {
    hide LoopKey, LoopsByKey, Containing, DistinctLoops, DistinctVars, Flatten, FromZero, TablesOf, WellFormedTables,
      GeneratedInfos, Standard, IsIteration, Executed, IsDescribed, Writes, Setup, StandsBefore;
    TwoShape();
    TwoBounds();
    TwoTexts();
    g, infos, previous := TablesFor(TWO);
    s, env := map[], _ => 0;
    var x, here := LoopKey(FIRST), LoopKey(SECOND);
    SetupTables(g, LoopVarsOf(LoopsByKey(TWO)));
    TwoPlaces(g);
    ZeroIteration(g, x, s, m);
    ProgramOf(g, TWO, LoopVarsOf(LoopsByKey(TWO)));
    FirstWritesAlone(g);
    TwoMissed(g, infos, previous, env, s, m);
  }

  lemma TwoMissed(g: Tables, infos: map<string, Info>, previous: map<string, seq<string>>, env: string -> int,
                  s: State, m: Model)
    requires Standard(m) && Setup(g, LoopVarsOf(LoopsByKey(TWO))) && GeneratedInfos(g, infos, previous)
    requires LoopKey(FIRST) in g.loops && LoopKey(SECOND) in g.loops
    requires LoopKey(FIRST) in g.containing && LoopKey(SECOND) in g.containing
    requires g.containing[LoopKey(FIRST)] == [] == g.containing[LoopKey(SECOND)]
    requires StandsBefore(g, LoopKey(FIRST), LoopKey(SECOND)) && LoopKey(FIRST) != LoopKey(SECOND)
    requires Writes(g, "a", LoopKey(FIRST)) && WritesAlone(g, "a", LoopKey(FIRST))
    requires IsIteration(g, LoopKey(FIRST), env, s, m)
    ensures Executed(g, LoopKey(FIRST), LoopKey(SECOND), env, s)
    ensures forall free :: !IsDescribed(g, infos, "a", LoopKey(FIRST), LoopKey(SECOND), env, free, s, m)
  {
    hide LoopKey, LoopsByKey, Loop, Setup, WellFormedTables, GeneratedInfos, Standard, IsIteration, Executed,
      IsDescribed, Writes, WritesAlone, StandsBefore;
    var vs := LoopVarsOf(LoopsByKey(TWO));
    var x, here := LoopKey(FIRST), LoopKey(SECOND);
    SetupTables(g, vs);
    SiblingsAreCovered(g, vs, infos, previous, "a", x, here, env, false, s, m);
    forall free ensures !IsDescribed(g, infos, "a", x, here, env, free, s, m) {
      SiblingsAreCovered(g, vs, infos, previous, "a", x, here, env, free, s, m);
    }
  }

  lemma FirstWritesAlone(g: Tables)
    requires Setup(g, LoopVarsOf(LoopsByKey(TWO))) && g.program == TWO
    requires LoopKey(FIRST) in g.loops && g.loops[LoopKey(FIRST)] == FIRST
    ensures WritesAlone(g, "a", LoopKey(FIRST))
  {
    hide LoopKey, LoopsByKey, Containing, IndexVars, Setup, LoopVarsOf, WellFormedTables;
    var vs := LoopVarsOf(LoopsByKey(TWO));
    SetupTables(g, vs);
    FirstIndexVars();
    var x := LoopKey(FIRST);
    assert PathOf(g, x)[|PathOf(g, x)| - 1] == FIRST && IterVar(FIRST) == "i";
    AloneIfWithin(g, vs, "a", x);
  }

  lemma FirstIndexVars()
    ensures IndexVars(TWO, "a") == {"i"}
  {
    hide Loop;
    assert "a"[0] == 'a' && "b"[0] == 'b';
    WritesIt("i", Put("a", Var("i")), "a");
    WritesIt("j", Put("b", Sum("i", "j")), "a");
    assert IndexVars(Put("b", Sum("i", "j")), "a") == {} && Vars(Var("i")) == {"i"};
    assert IndexVars(Zero("i"), "a") == {} && IndexVars(Zero("j"), "a") == {};
    IndexVarsSplit(TWO, "a");
    IndexVarsSplit(TWO.init, "a");
    IndexVarsSplit(TWO.init.init, "a");
  }

  lemma IndexVarsSplit(c: Stmt, a: string)
    requires c.Seq?
    ensures IndexVars(c, a) == IndexVars(c.init, a) + IndexVars(c.last, a)
  {
  }

  lemma TwoPlaces(g: Tables)
    requires TablesOf(g, TWO, LoopVarsOf(LoopsByKey(TWO))) && WellFormedTables(g)
    ensures var x, here := LoopKey(FIRST), LoopKey(SECOND);
      && x in g.loops && here in g.loops && g.loops[x] == FIRST && g.loops[here] == SECOND
      && g.containing[x] == [] && g.containing[here] == [] && StandsBefore(g, x, here) && Writes(g, "a", x)
  {
    hide LoopKey, LoopsByKey, Containing, DistinctLoops, IsNesting, FindInit, FindMax, Flatten, Loop, LoopVarsOf,
      WellFormedTables, IndexVars;
    TwoShape();
    TwoTexts();
    var block := Flatten(TWO);
    assert block[1] == FIRST && block[3] == SECOND;
    AtTheTop(TWO, FIRST);
    AtTheTop(TWO, SECOND);
    BeforeInBlock(block, 1, 3);
    WritesIt("i", Put("a", Var("i")), "a");
    assert Vars(Var("i")) == {"i"};
  }

  /** In a block without repetitions the places are the order. */
  lemma BeforeInBlock(block: seq<Stmt>, i: nat, j: nat)
    requires i < j < |block| && forall k | 0 <= k < j :: block[k] != block[j]
    ensures IndexOf(block, block[i]) < IndexOf(block, block[j])
  {
  }

  lemma WritesIt(v: string, c: Stmt, a: string)
    ensures IndexVars(Loop(v, c), a) == IndexVars(c, a) && IterVar(Loop(v, c)) == v
    ensures c.AssignArr? && c.a == a ==> IndexVars(c, a) == Vars(c.loc)
  {
    assert IndexVars(Incr(v), a) == {};
    assert IndexVars(Loop(v, c).body, a) == IndexVars(c, a) + IndexVars(Incr(v), a);
  }

  // ----- a loop inside an earlier sibling -----

  function Scaled(n: int, x: string): Exp { Bin(Num(n), Mul, Var(x)) }

  const A_CELL := Bin(Bin(Scaled(9, "i"), Add, Scaled(3, "j")), Add, Var("k"))
  const B_CELL := Bin(Scaled(3, "i"), Add, Var("l"))

  // `i = 0; while i { j = 0; while j { k = 0; while k { a[9 * i + 3 * j + k] = 1 } };
  //                   l = 0; while l { b[3 * i + l] = 1 } }`
  const DEEP := Loop("k", Put("a", A_CELL))
  const UPPER := Loop("j", Seq(Zero("k"), DEEP))
  const LOWER := Loop("l", Put("b", B_CELL))
  const BLOCK := Seq(Seq(Seq(Zero("j"), UPPER), Zero("l")), LOWER)
  const OUTER := Loop("i", BLOCK)
  const NESTED := Seq(Zero("i"), OUTER)

  lemma NestedTexts()
    ensures LoopKey(LOWER) != LoopKey(DEEP) && LoopKey(LOWER) != LoopKey(UPPER)
  {
    hide LoopKey, StmtToStr, TreeToStr;
    LoopLength("k", Put("a", A_CELL));
    LoopLength("j", Seq(Zero("k"), DEEP));
    LoopLength("l", Put("b", B_CELL));
    PutLength("a", A_CELL);
    PutLength("b", B_CELL);
    CellLengths();
    DeepLengths();
  }

  lemma CellLengths()
    ensures |TreeToStr(A_CELL)| > |TreeToStr(B_CELL)|
  {
    var i, j := Scaled(9, "i"), Scaled(3, "j");
    ScaledLength(9, "i");
    ScaledLength(3, "j");
    ScaledLength(3, "i");
    hide TreeToStr;
    BinLength(Bin(i, Add, j), Var("k"));
    BinLength(i, j);
    BinLength(Scaled(3, "i"), Var("l"));
    VarLength("k");
    VarLength("l");
  }

  lemma BinLength(l: Exp, r: Exp)
    ensures |TreeToStr(Bin(l, Add, r))| == |TreeToStr(l)| + |TreeToStr(r)| + 5
  {
  }

  lemma VarLength(x: string)
    ensures |TreeToStr(Var(x))| == |x|
  {
  }

  lemma ScaledLength(n: int, x: string)
    requires 0 <= n < 10
    ensures |TreeToStr(Scaled(n, x))| == |x| + 6
  {
    assert |NatToStr(n)| == 1;
    assert IntToStr(n) == NatToStr(n);
  }

  lemma DeepLengths()
    ensures |StmtToStr(Seq(Zero("k"), DEEP))| > |LoopKey(DEEP)|
  {
    hide Loop;
  }

  lemma UpperShape()
    ensures DistinctLoops(UPPER) && LoopKeys(UPPER) == {LoopKey(UPPER), LoopKey(DEEP)}
    ensures LoopsByKey(UPPER) == map[LoopKey(UPPER) := UPPER] + map[LoopKey(DEEP) := DEEP]
    ensures UPPER.While? && Flatten(UPPER) == [UPPER] && Flatten(UPPER.body) == [Zero("k"), DEEP, Incr("j")]
    ensures DEEP.While?
  {
    hide LoopKey, LoopKeys, DistinctLoops, LoopsByKey, Flatten;
    Leaf(Put("a", A_CELL));
    Leaf(Zero("k"));
    Single("k", Put("a", A_CELL));
    Pair(Zero("k"), DEEP);
    Single("j", Seq(Zero("k"), DEEP));
  }

  lemma BlockShape()
    ensures DistinctLoops(BLOCK) && LOWER.While?
    ensures LoopKeys(BLOCK) == {LoopKey(UPPER), LoopKey(DEEP), LoopKey(LOWER)}
    ensures LoopsByKey(BLOCK)
      == map[LoopKey(UPPER) := UPPER] + map[LoopKey(DEEP) := DEEP] + map[LoopKey(LOWER) := LOWER]
    ensures Flatten(BLOCK) == [Zero("j"), UPPER, Zero("l"), LOWER]
  {
    hide LoopKey, LoopKeys, DistinctLoops, LoopsByKey, Flatten;
    NestedTexts();
    UpperShape();
    Leaf(Zero("j"));
    Leaf(Zero("l"));
    Leaf(Put("b", B_CELL));
    Single("l", Put("b", B_CELL));
    Pair(Zero("j"), UPPER);
    Pair(Seq(Zero("j"), UPPER), Zero("l"));
    Pair(Seq(Seq(Zero("j"), UPPER), Zero("l")), LOWER);
  }

  lemma NestedShape()
    ensures DistinctLoops(NESTED) && Flatten(NESTED) == [Zero("i"), OUTER] && OUTER.While?
    ensures LoopsByKey(NESTED)
      == map[LoopKey(OUTER) := OUTER]
        + (map[LoopKey(UPPER) := UPPER] + map[LoopKey(DEEP) := DEEP] + map[LoopKey(LOWER) := LOWER])
    ensures Flatten(OUTER.body) == [Zero("j"), UPPER, Zero("l"), LOWER, Incr("i")]
  {
    hide LoopKey, LoopKeys, DistinctLoops, LoopsByKey, Flatten;
    BlockShape();
    Leaf(Zero("i"));
    Single("i", BLOCK);
    Pair(Zero("i"), OUTER);
  }

  lemma NestedFinds(v: string)
    requires v == "i" || v == "j" || v == "k" || v == "l"
    ensures FindInit(NESTED, v) == Some(Num(0)) && FindMax(NESTED, v) == Some(Num(3))
  {
    hide Loop, FindInit, FindMax;
    assert "i"[0] == 'i' && "j"[0] == 'j' && "k"[0] == 'k' && "l"[0] == 'l';
    var deep := Put("a", A_CELL);
    var low := Put("b", B_CELL);
    FindsNothing(deep, v);
    FindsNothing(low, v);
    Finds("k", deep, v);
    FindsPair(Seq(Zero("k"), DEEP), v);
    Finds("j", Seq(Zero("k"), DEEP), v);
    Finds("l", low, v);
    FindsPair(Seq(Zero("j"), UPPER), v);
    FindsPair(Seq(Seq(Zero("j"), UPPER), Zero("l")), v);
    FindsPair(BLOCK, v);
    Finds("i", BLOCK, v);
    FindsPair(NESTED, v);
  }

  lemma FindsNothing(c: Stmt, v: string)
    requires c.AssignArr?
    ensures FindInit(c, v) == None && FindMax(c, v) == None
  {
  }

  lemma NestedMember(k: string)
    requires k in LoopsByKey(NESTED)
    ensures var w := LoopsByKey(NESTED)[k];
      && k == LoopKey(w) && (w == OUTER || w == UPPER || w == DEEP || w == LOWER)
      && IterVar(w) == if w == OUTER then "i" else if w == UPPER then "j" else if w == DEEP then "k" else "l"
  {
    hide LoopKey, LoopsByKey, DistinctLoops, Flatten, LoopKeys;
    NestedShape();
    Differ();
  }

  lemma NestedBounds()
    ensures FromZero(NESTED) && DistinctVars(NESTED)
  {
    hide LoopKey, LoopsByKey, FindInit, FindMax, IterVar, Loop;
    assert "i"[0] == 'i' && "j"[0] == 'j' && "k"[0] == 'k' && "l"[0] == 'l';
    forall k | k in LoopsByKey(NESTED)
      ensures var v := IterVar(LoopsByKey(NESTED)[k]);
        FindInit(NESTED, v) == Some(Num(0)) && FindMax(NESTED, v) == Some(Num(3))
    {
      NestedMember(k);
      NestedFinds(IterVar(LoopsByKey(NESTED)[k]));
    }
    forall k, l | k in LoopsByKey(NESTED) && l in LoopsByKey(NESTED) && k != l
      ensures IterVar(LoopsByKey(NESTED)[k]) != IterVar(LoopsByKey(NESTED)[l])
    {
      NestedMember(k);
      NestedMember(l);
    }
  }

  lemma NestedPlaces(g: Tables)
    requires ProgramTables(g) && g.program == NESTED
    ensures var x, here := LoopKey(DEEP), LoopKey(LOWER);
      && x in g.loops && here in g.loops && g.loops[x] == DEEP && g.loops[here] == LOWER
      && x in g.containing && here in g.containing
      && g.containing[here] == [OUTER] && g.containing[x] == [OUTER, UPPER]
      && LoopKey(UPPER) in g.loops && StandsBefore(g, LoopKey(UPPER), here)
  {
    hide LoopKey, LoopsByKey, Containing, DistinctLoops, Flatten, Loop;
    NestedShape();
    UpperShape();
    BlockShape();
    Differ();
    var block := Flatten(OUTER.body);
    assert block[1] == UPPER && block[3] == LOWER && Flatten(NESTED)[1] == OUTER && Flatten(UPPER.body)[1] == DEEP;
    AtTheTop(NESTED, OUTER);
    InBody(g, OUTER, UPPER);
    InBody(g, OUTER, LOWER);
    InBody(g, UPPER, DEEP);
    BeforeInBlock(block, 1, 3);
  }

  lemma DeepWrites(g: Tables)
    requires WellFormedTables(g) && LoopKey(DEEP) in g.loops && g.loops[LoopKey(DEEP)] == DEEP
    requires LoopKey(DEEP) in g.containing && g.containing[LoopKey(DEEP)] == [OUTER, UPPER]
    ensures Writes(g, "a", LoopKey(DEEP))
  {
    hide LoopKey, WellFormedTables, IndexVars, Loop;
    var idx := A_CELL;
    WritesIt("k", Put("a", idx), "a");
    WritesIt("j", Seq(Zero("k"), DEEP), "a");
    WritesIt("i", BLOCK, "a");
    assert Vars(idx) == {"i", "j", "k"};
    assert PathOf(g, LoopKey(DEEP)) == [OUTER, UPPER, DEEP];
  }

  /** At the head of the lower loop, in the first iteration of the outer one, the loops above it
      have run to their ends. Whether a clause about the array they write describes `i = j = k = 0`
      depends on the range of `k`, which the clause of the loop around does not have. */
  lemma InnerLoopIsMissed(m: Model)
    returns (g: Tables, infos: map<string, Info>, previous: map<string, seq<string>>, s: State, env: string -> int)
    requires Standard(m)
    ensures TablesOf(g, NESTED, LoopVarsOf(LoopsByKey(NESTED))) && WellFormedTables(g)
    ensures GeneratedInfos(g, infos, previous)
    ensures LoopKey(DEEP) in g.loops && LoopKey(LOWER) in g.loops
    ensures Writes(g, "a", LoopKey(DEEP)) && IsIteration(g, LoopKey(DEEP), env, s, m)
    ensures Executed(g, LoopKey(DEEP), LoopKey(LOWER), env, s)
    ensures !IsDescribed(g, infos, "a", LoopKey(DEEP), LoopKey(LOWER), env, false, s, m)
    ensures IsDescribed(g, infos, "a", LoopKey(DEEP), LoopKey(LOWER), env, true, s, m)
  {
    hide LoopKey, LoopsByKey, Containing, DistinctLoops, DistinctVars, Flatten, FromZero, TablesOf, WellFormedTables,
      GeneratedInfos, Standard, IsIteration, Executed, IsDescribed, Writes, StandsBefore, IsNesting, ProgramTables,
      Loop;
    NestedShape();
    NestedBounds();
    g, infos, previous := TablesFor(NESTED);
    var vs := LoopVarsOf(LoopsByKey(NESTED));
    s, env := map["i" := IntV(0)], _ => 0;
    var x, here := LoopKey(DEEP), LoopKey(LOWER);
    ProgramOf(g, NESTED, vs);
    SetupTables(g, vs);
    NestedPlaces(g);
    DeepWrites(g);
    ZeroIteration(g, x, s, m);
    WritesIt("i", BLOCK, "a");
    Differ();
    DeepWritesAlone(g);
    InnerLoopsOfSiblings(g, vs, infos, previous, "a", x, here, env, false, s, m);
    InnerLoopsOfSiblings(g, vs, infos, previous, "a", x, here, env, true, s, m);
  }

  lemma DeepWritesAlone(g: Tables)
    requires Setup(g, LoopVarsOf(LoopsByKey(NESTED))) && g.program == NESTED
    requires LoopKey(DEEP) in g.loops && g.loops[LoopKey(DEEP)] == DEEP
    requires LoopKey(DEEP) in g.containing && g.containing[LoopKey(DEEP)] == [OUTER, UPPER]
    ensures WritesAlone(g, "a", LoopKey(DEEP))
  {
    hide LoopKey, LoopsByKey, Containing, IndexVars, Setup, LoopVarsOf, WellFormedTables;
    var vs := LoopVarsOf(LoopsByKey(NESTED));
    SetupTables(g, vs);
    NestedIndexVars();
    var x := LoopKey(DEEP);
    var p := PathOf(g, x);
    assert p == [OUTER, UPPER, DEEP];
    assert IterVar(p[0]) == "i" && IterVar(p[1]) == "j" && IterVar(p[2]) == "k";
    AloneIfWithin(g, vs, "a", x);
  }

  lemma NestedIndexVars()
    ensures IndexVars(NESTED, "a") <= {"i", "j", "k"}
  {
    hide Loop;
    assert "a"[0] == 'a' && "b"[0] == 'b';
    var idx := A_CELL;
    WritesIt("k", Put("a", idx), "a");
    WritesIt("j", Seq(Zero("k"), DEEP), "a");
    WritesIt("l", Put("b", B_CELL), "a");
    WritesIt("i", BLOCK, "a");
    assert Vars(idx) == {"i", "j", "k"};
    assert IndexVars(Put("b", B_CELL), "a") == {};
    assert IndexVars(Zero("i"), "a") == {} && IndexVars(Zero("j"), "a") == {};
    assert IndexVars(Zero("k"), "a") == {} && IndexVars(Zero("l"), "a") == {};
    IndexVarsSplit(Seq(Zero("k"), DEEP), "a");
    IndexVarsSplit(BLOCK, "a");
    IndexVarsSplit(BLOCK.init, "a");
    IndexVarsSplit(BLOCK.init.init, "a");
    IndexVarsSplit(NESTED, "a");
  }

  lemma ProgramOf(g: Tables, c: Stmt, vs: set<string>)
    requires TablesOf(g, c, vs)
    ensures g.program == c
  {
    hide LoopsByKey, Containing, IsNesting, FindInit, FindMax;
  }

  lemma Differ()
    ensures LOWER != OUTER && LOWER != UPPER && LOWER != DEEP && DEEP != OUTER && DEEP != UPPER && UPPER != OUTER
  {
    assert "i"[0] == 'i' && "j"[0] == 'j' && "k"[0] == 'k' && "l"[0] == 'l';
    assert LOWER.iterVar == "l" && OUTER.iterVar == "i" && UPPER.iterVar == "j" && DEEP.iterVar == "k";
  }
}
