/** Perfect loop nests of any depth, and what the generator's tables and invariants are for them. */
module Nest {
  import opened StencilIr
  import opened Invariant
  import opened Termination
  import opened VerifyTheorems

  datatype Level = Level(v: string, lo: Exp, hi: Exp)

  /** `v0 = lo0; while (v0 < hi0) { v1 = lo1; while .. { out[idx] = rhs; .. } .. v0 = v0 + 1 }` */
  datatype NestProg = NestProg(levels: seq<Level>, out: string, idx: Exp, rhs: Exp) {
    function Depth(): nat { |levels| }

    function From(k: nat): Stmt
      requires k <= Depth()
      decreases Depth() - k, 1
    {
      if k == Depth() then AssignArr(out, idx, rhs)
      else Seq(Start(k), Loop(k))
    }

    function Loop(k: nat): Stmt
      requires k < Depth()
      decreases Depth() - k, 0
    {
      While(levels[k].v, Bin(Var(levels[k].v), Lt, levels[k].hi), Body(k))
    }

    function Body(k: nat): Stmt
      requires k < Depth()
      decreases Depth() - k - 1, 2
    {
      Seq(From(k + 1), Incr(levels[k].v))
    }

    function Start(k: nat): Stmt
      requires k < Depth()
    {
      AssignVar(levels[k].v, levels[k].lo)
    }

    function Program(): Stmt { From(0) }

    function Key(k: nat): string
      requires k < Depth()
    {
      LoopKey(Loop(k))
    }

    function LoopVars(): set<string> { set i | 0 <= i < Depth() :: levels[i].v }

    /** Everything the program assigns. */
    function Changing(): set<string> { LoopVars() + {out} }

    /** Distinct loop variables, bounds that the nest does not change, an index without array
        reads, and a right-hand side that does not read the output. */
    ghost predicate WellFormed() {
      && Depth() > 0 && out !in LoopVars()
      && (forall i, j | 0 <= i < j < Depth() :: levels[i].v != levels[j].v)
      && (forall i | 0 <= i < Depth() :: Fixed(levels[i].lo) && Fixed(levels[i].hi))
      && Plain(idx) && NoArrays(idx) && out !in Vars(idx)
      && Plain(rhs) && out !in Vars(rhs)
    }

    predicate Fixed(e: Exp) { Plain(e) && Vars(e) !! Changing() }
  }

  predicate NoArrays(e: Exp) {
    match e
    case Arr(_, _) => false
    case Bin(l, _, r) => NoArrays(l) && NoArrays(r)
    case _ => true
  }

  lemma LoopShape(P: NestProg, k: nat)
    requires k < P.Depth()
    ensures P.Loop(k) == While(P.levels[k].v, Bin(Var(P.levels[k].v), Lt, P.levels[k].hi), P.Body(k))
    ensures IterVar(P.Loop(k)) == P.levels[k].v
  {
  }

  // ----- texts -----

  lemma {:induction false} LoopKeysFrom(P: NestProg, k: nat)
    requires k <= P.Depth()
    ensures LoopKeys(P.From(k)) == set j | k <= j < P.Depth() :: P.Key(j)
    decreases P.Depth() - k
  {
    hide LoopKey;
    if k < P.Depth() {
      LoopKeysFrom(P, k + 1);
      assert LoopKeys(P.Body(k)) == LoopKeys(P.From(k + 1));
      assert LoopKeys(P.Loop(k)) == {P.Key(k)} + LoopKeys(P.Body(k));
      assert LoopKeys(P.From(k)) == LoopKeys(P.Loop(k));
    }
  }

  lemma KeysShrink(P: NestProg, j: nat, k: nat)
    requires j < k < P.Depth()
    ensures |P.Key(k)| < |P.Key(j)|
  {
    hide LoopKey;
    LoopKeysFrom(P, j + 1);
    assert P.Key(k) in LoopKeys(P.From(j + 1));
    assert P.Key(k) in LoopKeys(P.Body(j));
    assert P.Loop(j).body == P.Body(j);
    assert P.Key(k) in LoopKeys(P.Loop(j));
    InnerTextsAreShorter(P.Loop(j), P.Key(k));
  }

  lemma KeysDiffer(P: NestProg, j: nat, k: nat)
    requires j < P.Depth() && k < P.Depth() && j != k
    ensures P.Key(j) != P.Key(k)
  {
    if j < k { KeysShrink(P, j, k); } else { KeysShrink(P, k, j); }
  }

  // ----- shape: plain, key-safe, counting, distinct texts -----

  lemma {:induction false} NestAssigned(P: NestProg, k: nat)
    requires k <= P.Depth()
    ensures Assigned(P.From(k)) == {P.out} + set j | k <= j < P.Depth() :: P.levels[j].v
    decreases P.Depth() - k
  {
    hide LoopKey;
    if k < P.Depth() {
      NestAssigned(P, k + 1);
      assert Assigned(P.Body(k)) == Assigned(P.From(k + 1)) + {P.levels[k].v};
      assert Assigned(P.From(k)) == {P.levels[k].v} + Assigned(P.Body(k));
    }
  }

  lemma IncrShape(v: string)
    ensures PlainStmt(Incr(v)) && KeySafe(Incr(v), {}) && PendingKeys(Incr(v), {}) == {}
  {
    assert Plain(Var(v)) && Plain(Num(1));
    assert Plain(Incr(v).rval);
  }

  lemma {:induction false} NestShape(P: NestProg, k: nat)
    requires P.WellFormed() && k <= P.Depth()
    ensures PlainStmt(P.From(k)) && KeySafe(P.From(k), {}) && Counting(P.From(k))
    decreases P.Depth() - k
  {
    hide LoopKey;
    if k < P.Depth() {
      NestShape(P, k + 1);
      NestAssigned(P, k + 1);
      var lv := P.levels[k];
      assert P.Fixed(lv.hi) && P.Fixed(lv.lo);
      assert Assigned(P.Body(k)) == {lv.v} + Assigned(P.From(k + 1)) && Assigned(P.Body(k)) <= P.Changing();
      IncrShape(lv.v);
      assert P.Body(k) == Seq(P.From(k + 1), Incr(lv.v));
      assert PlainStmt(P.Body(k)) && KeySafe(P.Body(k), {});
      assert P.Loop(k) == While(lv.v, Bin(Var(lv.v), Lt, lv.hi), P.Body(k));
      assert Plain(Bin(Var(lv.v), Lt, lv.hi));
      assert PlainStmt(P.Loop(k)) && KeySafe(P.Loop(k), {}) && Counting(P.Loop(k));
      assert PlainStmt(P.Start(k)) && KeySafe(P.Start(k), PendingKeys(P.Loop(k), {})) && Counting(P.Start(k));
    }
  }

  // ----- the tables -----

  function Around(P: NestProg, k: nat): seq<Stmt>
    requires k < P.Depth()
  {
    seq(k, i requires 0 <= i < k => P.Loop(i))
  }

  lemma LeafTables(P: NestProg, outer: seq<Stmt>)
    ensures LoopsByKey(P.From(P.Depth())) == map[] && Containing(P.From(P.Depth()), outer) == map[]
  {
  }

  lemma LoopsByKeyStep(P: NestProg, k: nat)
    requires k < P.Depth()
    ensures LoopsByKey(P.From(k)) == map[P.Key(k) := P.Loop(k)] + LoopsByKey(P.From(k + 1))
  {
    hide LoopKey;
    var inner := LoopsByKey(P.From(k + 1));
    assert P.Body(k) == Seq(P.From(k + 1), Incr(P.levels[k].v)) && LoopsByKey(Incr(P.levels[k].v)) == map[];
    assert LoopsByKey(P.Body(k)) == inner;
    assert LoopsByKey(P.Loop(k)) == map[P.Key(k) := P.Loop(k)] + inner;
  }

  lemma {:induction false} LoopsByKeyFrom(P: NestProg, k: nat)
    requires k <= P.Depth()
    ensures LoopsByKey(P.From(k)).Keys == set j | k <= j < P.Depth() :: P.Key(j)
    ensures forall j | k <= j < P.Depth() :: LoopsByKey(P.From(k))[P.Key(j)] == P.Loop(j)
    decreases P.Depth() - k
  {
    hide LoopKey, NestProg.Loop, NestProg.From, NestProg.Key, LoopsByKey;
    if k == P.Depth() {
      LeafTables(P, []);
    } else {
      LoopsByKeyStep(P, k);
      LoopsByKeyFrom(P, k + 1);
      forall j | k < j < P.Depth() ensures P.Key(j) != P.Key(k) { KeysDiffer(P, j, k); }
    }
  }

  lemma AroundNext(P: NestProg, k: nat)
    requires k + 1 < P.Depth()
    ensures Around(P, k) + [P.Loop(k)] == Around(P, k + 1)
  {
    hide LoopKey, NestProg.Loop;
  }

  lemma ContainingStep(P: NestProg, k: nat, outer: seq<Stmt>)
    requires k < P.Depth()
    ensures Containing(P.From(k), outer) == map[P.Key(k) := outer] + Containing(P.From(k + 1), outer + [P.Loop(k)])
  {
    hide LoopKey;
    var inner := Containing(P.Body(k), outer + [P.Loop(k)]);
    assert P.Body(k) == Seq(P.From(k + 1), Incr(P.levels[k].v));
    assert Containing(Incr(P.levels[k].v), outer + [P.Loop(k)]) == map[];
    assert inner == Containing(P.From(k + 1), outer + [P.Loop(k)]);
    assert Containing(P.Loop(k), outer) == map[P.Key(k) := outer] + inner;
  }

  lemma {:induction false} ContainingFrom(P: NestProg, k: nat)
    requires k < P.Depth()
    ensures Containing(P.From(k), Around(P, k)).Keys == set j | k <= j < P.Depth() :: P.Key(j)
    ensures forall j | k <= j < P.Depth() :: Containing(P.From(k), Around(P, k))[P.Key(j)] == Around(P, j)
    decreases P.Depth() - k
  {
    hide LoopKey, Around, NestProg.Loop, NestProg.From, NestProg.Key, Containing;
    ContainingStep(P, k, Around(P, k));
    if k + 1 == P.Depth() {
      LeafTables(P, Around(P, k) + [P.Loop(k)]);
    } else {
      AroundNext(P, k);
      ContainingFrom(P, k + 1);
      forall j | k < j < P.Depth() ensures P.Key(j) != P.Key(k) { KeysDiffer(P, j, k); }
    }
  }

  lemma {:induction false} BoundsFrom(P: NestProg, k: nat, j: nat)
    requires P.WellFormed() && k <= P.Depth() && j < P.Depth()
    ensures FindInit(P.From(k), P.levels[j].v) == if k <= j then Some(P.levels[j].lo) else None
    ensures FindMax(P.From(k), P.levels[j].v) == if k <= j then Some(P.levels[j].hi) else None
    decreases P.Depth() - k
  {
    hide LoopKey;
    if k < P.Depth() {
      BoundsFrom(P, k + 1, j);
      var v := P.levels[j].v;
      assert P.Fixed(P.levels[k].lo);
      var w := P.levels[k].v;
      assert w in Vars(Incr(w).rval);
      assert FindInit(Incr(w), v) == None && FindMax(Incr(w), v) == None;
      assert FindInit(P.Body(k), v) == FindInit(P.From(k + 1), v) && FindMax(P.Body(k), v) == FindMax(P.From(k + 1), v);
      assert FindInit(P.Loop(k), v) == FindInit(P.Body(k), v);
      assert FindMax(P.Start(k), v) == None;
    }
  }

  /** The tables' entries for loop `k`. */
  lemma NestTablesAt(P: NestProg, g: Tables, k: nat)
    requires P.WellFormed() && TablesOf(g, P.Program(), P.LoopVars()) && k < P.Depth()
    ensures P.Key(k) in g.loops && g.loops[P.Key(k)] == P.Loop(k)
    ensures P.Key(k) in g.containing && g.containing[P.Key(k)] == Around(P, k)
    ensures P.levels[k].v in g.nesting && g.nesting[P.levels[k].v] == IterVars(Around(P, k))
    ensures P.levels[k].v in g.mins && g.mins[P.levels[k].v] == P.levels[k].lo
    ensures P.levels[k].v in g.maxs && g.maxs[P.levels[k].v] == P.levels[k].hi
  {
    hide LoopKey, LoopsByKey, Containing, FindInit, FindMax, NestProg.From, NestProg.Loop, NestProg.Body;
    LoopsByKeyFrom(P, 0);
    ContainingFrom(P, 0);
    AroundNone(P);
    BoundsFrom(P, 0, k);
    LoopShape(P, k);
  }

  lemma AroundNone(P: NestProg)
    requires P.Depth() > 0
    ensures Around(P, 0) == []
  {
  }

  lemma AroundVars(P: NestProg, k: nat)
    requires k < P.Depth()
    ensures forall w | w in Around(P, k) :: w.While?
    ensures |IterVars(Around(P, k))| == k && forall i | 0 <= i < k :: IterVars(Around(P, k))[i] == P.levels[i].v
  {
    hide LoopKey;
  }

  lemma NestKeys(P: NestProg, g: Tables)
    requires P.WellFormed() && TablesOf(g, P.Program(), P.LoopVars())
    ensures g.loops.Keys == g.containing.Keys == set k | 0 <= k < P.Depth() :: P.Key(k)
    ensures g.mins.Keys == g.nesting.Keys == g.maxs.Keys == P.LoopVars()
  {
    hide LoopKey, LoopsByKey, Containing, FindInit, FindMax, Around, NestProg.From, NestProg.Loop;
    LoopsByKeyFrom(P, 0);
    ContainingFrom(P, 0);
    AroundNone(P);
  }

  lemma NestTables(P: NestProg, g: Tables)
    requires P.WellFormed() && TablesOf(g, P.Program(), P.LoopVars())
    ensures WellFormedTables(g)
    ensures g.loops.Keys == set k | 0 <= k < P.Depth() :: P.Key(k)
    ensures g.nesting.Keys == P.LoopVars()
  {
    hide LoopKey, TablesOf, Around, IterVars, NestProg.From, NestProg.Loop, NestProg.WellFormed;
    NestKeys(P, g);
    forall k | k in g.loops
      ensures g.loops[k].While? && IterVar(g.loops[k]) in g.nesting && forall w | w in g.containing[k] :: w.While?
    {
      var j :| 0 <= j < P.Depth() && k == P.Key(j);
      NestTablesAt(P, g, j);
      LoopShape(P, j);
      AroundVars(P, j);
    }
    forall x, v | v in g.nesting && x in g.nesting[v] ensures x in g.nesting {
      var k :| 0 <= k < P.Depth() && v == P.levels[k].v;
      NestTablesAt(P, g, k);
      AroundVars(P, k);
    }
  }

  // ----- the generated invariants -----

  /** The range of variable `i` in the clause generated for loop `k`. */
  function NestRange(P: NestProg, k: nat, i: nat): Range
    requires k < P.Depth() && i < P.Depth()
  {
    if i < k then Current(P.levels[i].v)
    else if i == k then Range(P.levels[k].lo, Var(P.levels[k].v))
    else Range(P.levels[i].lo, P.levels[i].hi)
  }

  lemma NestNesting(P: NestProg, g: Tables, i: nat, k: nat)
    requires P.WellFormed() && TablesOf(g, P.Program(), P.LoopVars()) && i < P.Depth() && k < P.Depth()
    ensures P.levels[i].v in g.nesting && P.levels[k].v in g.nesting
    ensures P.levels[i].v in g.nesting[P.levels[k].v] <==> i < k
  {
    hide LoopKey, LoopsByKey, Containing, FindInit, FindMax, NestProg.From, NestProg.Loop, NestProg.Body, IterVars,
      Around;
    NestTablesAt(P, g, i);
    NestTablesAt(P, g, k);
    AroundVars(P, k);
    if i < k { assert g.nesting[P.levels[k].v][i] == P.levels[i].v; }
  }

  lemma {:induction false} IndexVarsFrom(P: NestProg, k: nat)
    requires k <= P.Depth()
    ensures IndexVars(P.From(k), P.out) == Vars(P.idx) && Outputs(P.From(k)) == {P.out}
    decreases P.Depth() - k
  {
    hide LoopKey;
    if k < P.Depth() {
      IndexVarsFrom(P, k + 1);
      assert IndexVars(P.Body(k), P.out) == Vars(P.idx) && Outputs(P.Body(k)) == {P.out};
      assert IndexVars(P.Loop(k), P.out) == Vars(P.idx) && Outputs(P.Loop(k)) == {P.out};
    }
  }

  lemma NestOutputs(P: NestProg, g: Tables, k: nat)
    requires P.WellFormed() && TablesOf(g, P.Program(), P.LoopVars()) && k < P.Depth()
    ensures OutputsOf(g, P.levels[k].v) == if P.levels[k].v in Vars(P.idx) then {P.out} else {}
  {
    hide LoopKey, LoopsByKey, Containing, FindInit, FindMax, IsNesting, NestProg.From, Vars;
    IndexVarsFrom(P, 0);
  }

  /** The clause of loop `k`: a range for every loop variable, and the output exactly when the
      index mentions the loop's variable. */
  ghost function NestClause(P: NestProg, k: nat): (c: Clause)
    requires P.WellFormed() && k < P.Depth()
    ensures c.ranges.Keys == P.LoopVars()
    ensures forall i | 0 <= i < P.Depth() :: P.levels[i].v in c.ranges && c.ranges[P.levels[i].v] == NestRange(P, k, i)
  {
    hide NestRange, NestProg.Fixed;
    Clause(map i | 0 <= i < P.Depth() :: P.levels[i].v := NestRange(P, k, i),
           if P.levels[k].v in Vars(P.idx) then {P.out} else {})
  }

  lemma NestOwnRange(P: NestProg, g: Tables, k: nat, i: nat)
    requires P.WellFormed() && TablesOf(g, P.Program(), P.LoopVars()) && k < P.Depth() && i < P.Depth()
    requires WellFormedTables(g) && P.Key(k) in g.loops
    ensures P.levels[i].v in OwnRanges(g, P.Key(k)) && OwnRanges(g, P.Key(k))[P.levels[i].v] == NestRange(P, k, i)
  {
    hide LoopKey, TablesOf, WellFormedTables, NestProg.WellFormed, NestProg.Loop, OwnRanges, OutputsOf;
    LoopShape(P, k);
    NestTablesAt(P, g, i);
    NestTablesAt(P, g, k);
    NestNesting(P, g, i, k);
    NestNesting(P, g, k, i);
    NestNesting(P, g, k, k);
    OwnRangeAt(g, P.Key(k), P.levels[i].v);
  }

  lemma NestOwnRangeKeys(P: NestProg, g: Tables, k: nat)
    requires P.WellFormed() && TablesOf(g, P.Program(), P.LoopVars()) && k < P.Depth()
    requires WellFormedTables(g) && P.Key(k) in g.loops
    ensures OwnRanges(g, P.Key(k)).Keys <= P.LoopVars()
  {
    hide LoopKey, WellFormedTables, NestProg.WellFormed, NestProg.Loop, FindInit, FindMax, LoopsByKey, Containing;
  }

  /** The generator produces that clause. */
  lemma NestCurrentClause(P: NestProg, g: Tables, k: nat)
    requires P.WellFormed() && TablesOf(g, P.Program(), P.LoopVars()) && k < P.Depth()
    ensures WellFormedTables(g) && P.Key(k) in g.loops
    ensures CurrentClause(g, P.Key(k)) == NestClause(P, k)
  {
    hide LoopKey, TablesOf, WellFormedTables, NestProg.WellFormed, OutputsOf, NestProg.Loop, IterVars, Around,
      OwnRanges, NestRange;
    NestTables(P, g);
    NestTablesAt(P, g, k);
    NestOutputs(P, g, k);
    LoopShape(P, k);
    var c := CurrentClause(g, P.Key(k));
    NestOwnRangeKeys(P, g, k);
    forall i | 0 <= i < P.Depth() ensures P.levels[i].v in c.ranges && c.ranges[P.levels[i].v] == NestRange(P, k, i) {
      NestOwnRange(P, g, k, i);
    }
    assert c.ranges == NestClause(P, k).ranges;
  }

  /** Loop `k` calls only the invariant of loop `k - 1`. */
  lemma NestInfo(P: NestProg, g: Tables, k: nat)
    requires P.WellFormed() && TablesOf(g, P.Program(), P.LoopVars()) && k < P.Depth()
    ensures WellFormedTables(g) && P.Key(k) in g.loops && P.levels[k].v in g.nesting
    ensures InfoFor(g, P.Key(k), []) == Info(P.Key(k), if k == 0 then [] else [P.Key(k - 1)], [NestClause(P, k)])
  {
    hide LoopKey, TablesOf, WellFormedTables, NestProg.WellFormed, NestProg.Loop, CurrentClause, NestClause;
    NestTables(P, g);
    NestTablesAt(P, g, k);
    LoopShape(P, k);
    NestCurrentClause(P, g, k);
    var none: seq<Clause> := [];
    assert none + [NestClause(P, k)] == [NestClause(P, k)];
    assert |Around(P, k)| == k;
    if k > 0 { assert Around(P, k)[k - 1] == P.Loop(k - 1); }
  }

  /** No loop of a nest has siblings. */
  lemma NestSiblings(P: NestProg, g: Tables, gen: InvariantGenerator, i: nat, k: nat)
    requires P.WellFormed() && TablesOf(g, P.Program(), P.LoopVars()) && gen.g == g && i < P.Depth() && k < P.Depth()
    ensures P.Key(i) in g.containing && P.Key(k) in g.containing
    ensures g.containing[P.Key(k)] != [] ==> !gen.Siblings(P.Key(i), P.Key(k))
  {
    hide LoopKey, TablesOf, NestProg.WellFormed, NestProg.Loop;
    NestTablesAt(P, g, i);
    NestTablesAt(P, g, k);
    if i > 0 && k > 0 {
      assert Around(P, i)[i - 1] == P.Loop(i - 1) && Around(P, k)[k - 1] == P.Loop(k - 1);
      if i != k { KeysDiffer(P, i - 1, k - 1); }
    }
  }
}
