/** What the loops of a tree compute, and the invariant "every executed iteration is done". */
module TreeMeaning {
  import opened StencilIr
  import opened Interpret
  import opened VerifyTheorems
  import opened Invariant
  import opened Siblings
  import opened SiblingTables
  import opened SiblingCoverage
  import opened NestMeaning
  import opened LoopTrees
  import opened TreeTables

  /** The state in which the loop variables on a path have the values of an iteration. */
  function PutAt(s: State, p: seq<Stmt>, env: string -> int): State {
    s + map v | v in PathVarSet(p) :: IntV(env(v))
  }

  function IndexAt(g: Tables, u: Tree, env: string -> int, s: State, m: Model): Value
    requires u.Leaf? && InPlace(g, u)
  {
    Eval(u.idx, PutAt(s, PathOf(g, Key(u)), env), m)
  }

  function ValueOf(g: Tables, u: Tree, env: string -> int, s: State, m: Model): Value
    requires u.Leaf? && InPlace(g, u)
  {
    Eval(u.rhs, PutAt(s, PathOf(g, Key(u)), env), m)
  }

  /** The output of leaf `u` has its final value for iteration `env`. */
  ghost predicate DoneAt(g: Tables, u: Tree, env: string -> int, s: State, m: Model)
    requires u.Leaf? && InPlace(g, u)
  {
    Select(Lookup(s, u.out), IndexAt(g, u, env, s, m)) == ValueOf(g, u, env, s, m)
  }

  /** Two iterations differ in a variable of the path. */
  predicate Differ(p: seq<Stmt>, env: string -> int, env': string -> int) {
    exists b | 0 <= b < |p| :: env(IterVar(p[b])) != env'(IterVar(p[b]))
  }

  /** Integer bounds with `hi - lo > 1`, and integer indices that are injective on the iterations
      of their loop. */
  ghost predicate AssumedIn(g: Tables, t: Tree, s: State, m: Model)
    requires WellFormedTables(g)
  {
    && (forall u | u in Nodes(t) ::
          Eval(u.lo, s, m).IntV? && Eval(u.hi, s, m).IntV? && IntOf(Eval(u.hi, s, m)) - IntOf(Eval(u.lo, s, m)) > 1)
    && (forall u, env | u in Nodes(t) && u.Leaf? && InPlace(g, u) && IsIteration(g, Key(u), env, s, m) ::
      IndexAt(g, u, env, s, m).IntV?)
    && (forall u, env, env' | u in Nodes(t) && u.Leaf? && InPlace(g, u)
          && IsIteration(g, Key(u), env, s, m) && IsIteration(g, Key(u), env', s, m)
          && Differ(PathOf(g, Key(u)), env, env') ::
          IndexAt(g, u, env, s, m) != IndexAt(g, u, env', s, m))
  }

  ghost function AdmissibleIn(g: Tables, t: Tree, m: Model): State -> bool
    requires WellFormedTables(g)
  {
    (s: State) => AssumedIn(g, t, s, m)
  }

  // ----- what assignments leave alone -----

  lemma PutAtLookup(s: State, p: seq<Stmt>, env: string -> int, x: string)
    ensures Lookup(PutAt(s, p, env), x) == if x in PathVarSet(p) then IntV(env(x)) else Lookup(s, x)
  {
  }

  /** Assigning what the program changes moves no bound. */
  lemma BoundsKept(g: Tables, t: Tree, u: Tree, s: State, x: string, w: Value, m: Model)
    requires World(g, t) && u in Nodes(t) && x in Changing(t)
    ensures Eval(u.lo, s[x := w], m) == Eval(u.lo, s, m) && Eval(u.hi, s[x := w], m) == Eval(u.hi, s, m)
  {
    hide LoopKey, LoopOf, TablesOf, Setup, Eval, Vars, Plain, VarsApart, DistinctLoops, Changing;
    TreeBounds(t, {}, Changing(t), u);
    Coincidence(u.lo, s[x := w], s, m);
    Coincidence(u.hi, s[x := w], s, m);
  }

  lemma {:induction false} TreeBounds(t: Tree, outer: set<string>, changing: set<string>, u: Tree)
    requires WellScoped(t, outer, changing) && u in Nodes(t)
    ensures Vars(u.lo) !! changing && Vars(u.hi) !! changing
    decreases t
  {
    hide Vars, Plain;
    if u == t {
      forall x | x in changing ensures x !in Vars(t.lo) && x !in Vars(t.hi) {
        assert x in Vars(t.lo) ==> x in Vars(t.lo) * changing;
        assert x in Vars(t.hi) ==> x in Vars(t.hi) * changing;
      }
    } else {
      var i :| 0 <= i < |t.kids| && u in Nodes(t.kids[i]);
      TreeBounds(t.kids[i], outer + {t.v}, changing, u);
    }
  }

  /** An expression over the path's variables does not see what the program changes. */
  lemma SteadyKept(e: Exp, changing: set<string>, p: seq<Stmt>, env: string -> int, s: State, x: string, w: Value,
                   m: Model)
    requires Vars(e) * changing <= PathVarSet(p) && x in changing
    ensures Eval(e, PutAt(s[x := w], p, env), m) == Eval(e, PutAt(s, p, env), m)
  {
    hide Eval, Vars, PathVarSet;
    forall y | y in Vars(e) ensures Lookup(PutAt(s[x := w], p, env), y) == Lookup(PutAt(s, p, env), y) {
      PutAtLookup(s, p, env, y);
      PutAtLookup(s[x := w], p, env, y);
      assert y in changing ==> y in Vars(e) * changing;
    }
    Coincidence(e, PutAt(s[x := w], p, env), PutAt(s, p, env), m);
  }

  lemma LeafKept(g: Tables, t: Tree, u: Tree, env: string -> int, s: State, x: string, w: Value, m: Model)
    requires World(g, t) && u in Nodes(t) && u.Leaf? && x in Changing(t)
    ensures InPlace(g, u)
    ensures IndexAt(g, u, env, s[x := w], m) == IndexAt(g, u, env, s, m)
    ensures ValueOf(g, u, env, s[x := w], m) == ValueOf(g, u, env, s, m)
    ensures x != u.out ==> DoneAt(g, u, env, s[x := w], m) == DoneAt(g, u, env, s, m)
  {
    hide LoopKey, LoopOf, World, Eval, Vars, Changing, PathOf, PutAt;
    WorldScope(g, t, u);
    SteadyKept(u.idx, Changing(t), PathOf(g, Key(u)), env, s, x, w, m);
    SteadyKept(u.rhs, Changing(t), PathOf(g, Key(u)), env, s, x, w, m);
  }

  /** The bounds in the tables are those of the tree's loops. */
  lemma TableBounds(g: Tables, t: Tree, v: string) returns (u: Tree)
    requires World(g, t) && v in g.nesting
    ensures u in Nodes(t) && u.v == v && v in g.mins && v in g.maxs && g.mins[v] == u.lo && g.maxs[v] == u.hi
  {
    hide LoopKey, LoopOf, WellFormedTables, FindInit, FindMax, LoopsByKey, Containing, ProgramTables, WellFormedTree;
    u :| u in Nodes(t) && u.v == v;
    WorldBounds(g, t, u);
  }

  lemma IterationKept(g: Tables, t: Tree, k: string, env: string -> int, s: State, x: string, w: Value, m: Model)
    requires World(g, t) && k in g.loops && x in Changing(t) && WellFormedTables(g)
    ensures IsIteration(g, k, env, s[x := w], m) <==> IsIteration(g, k, env, s, m)
  {
    hide LoopKey, LoopOf, World, Eval, Changing, PathOf, WellFormedTables, IterVar;
    WorldTables(g, t);
    forall v | v in g.nesting
      ensures Within(FullRange(g, v), env(v), s[x := w], m) <==> Within(FullRange(g, v), env(v), s, m)
    {
      var u := TableBounds(g, t, v);
      BoundsKept(g, t, u, s, x, w, m);
    }
  }

  lemma WorldTables(g: Tables, t: Tree)
    requires World(g, t)
    ensures WellFormedTables(g) && Setup(g, TreeVars(t)) && g.containing.Keys == g.loops.Keys
    ensures g.mins.Keys == g.nesting.Keys == g.maxs.Keys
  {
    hide LoopKey, IsNesting, WellFormedTree, FindInit, FindMax, LoopsByKey, Containing, ProgramTables, WellFormedTables;
    InTables(g);
  }

  lemma AssumedKept(g: Tables, t: Tree, s: State, x: string, w: Value, m: Model)
    requires World(g, t) && WellFormedTables(g) && x in Changing(t) && AssumedIn(g, t, s, m)
    ensures AssumedIn(g, t, s[x := w], m)
  {
    hide LoopKey, LoopOf, World, Eval, Changing, PathOf, WellFormedTables, IndexAt, IsIteration, DoneAt, ValueOf, Nodes,
      InPlace, Differ;
    var s' := s[x := w];
    forall u | u in Nodes(t) ensures Eval(u.lo, s', m) == Eval(u.lo, s, m) && Eval(u.hi, s', m) == Eval(u.hi, s, m) {
      BoundsKept(g, t, u, s, x, w, m);
    }
    forall u, env | u in Nodes(t) && u.Leaf? && InPlace(g, u)
      ensures IndexAt(g, u, env, s', m) == IndexAt(g, u, env, s, m)
      ensures Key(u) in g.loops && (IsIteration(g, Key(u), env, s', m) <==> IsIteration(g, Key(u), env, s, m))
    {
      LeafKept(g, t, u, env, s, x, w, m);
      AtIsLoop(g, u);
      IterationKept(g, t, Key(u), env, s, x, w, m);
    }
  }

  lemma AtIsLoop(g: Tables, u: Tree)
    requires InPlace(g, u)
    ensures Key(u) in g.loops && Key(u) in g.containing
  {
    hide LoopKey, LoopOf;
  }

  lemma AdmissibleInClosed(g: Tables, t: Tree, m: Model)
    requires World(g, t) && WellFormedTables(g)
    ensures Closed(AdmissibleIn(g, t, m), Changing(t))
  {
    hide LoopKey, World, WellFormedTables, AssumedIn, Changing;
    forall s, x, w {:trigger AdmissibleIn(g, t, m)(s[x := w])} | AdmissibleIn(g, t, m)(s) && x in Changing(t)
      ensures AdmissibleIn(g, t, m)(s[x := w])
    {
      AssumedKept(g, t, s, x, w, m);
    }
  }
}
