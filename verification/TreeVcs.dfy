/** "Every executed iteration is done" is inductive, for loop trees of any shape. */
module TreeVcs {
  import opened StencilIr
  import opened Interpret
  import opened Invariant
  import opened Siblings
  import opened SiblingTables
  import opened SiblingCoverage
  import opened LoopOrder
  import opened NestMeaning
  import opened LoopTrees
  import opened TreeTables
  import opened TreeMeaning
  import opened Hoare

  function LoV(g: Tables, v: string, s: State, m: Model): int {
    if v in g.mins then IntOf(Eval(g.mins[v], s, m)) else 0
  }

  function HiV(g: Tables, v: string, s: State, m: Model): int {
    if v in g.maxs then IntOf(Eval(g.maxs[v], s, m)) else 0
  }

  /** Inside an iteration of every loop on the path. */
  ghost predicate InsideAll(g: Tables, p: seq<Stmt>, s: State, m: Model) {
    forall b | 0 <= b < |p| ::
      && Lookup(s, IterVar(p[b])).IntV?
      && LoV(g, IterVar(p[b]), s, m) <= Now(IterVar(p[b]), s) < HiV(g, IterVar(p[b]), s, m)
  }

  /** The bounds every invariant carries: its own loop may have ended, the loops around it not. */
  ghost predicate BoundsAt(g: Tables, key: string, s: State, m: Model)
    requires key in g.loops && key in g.containing
  {
    var v := IterVar(g.loops[key]);
    InsideAll(g, g.containing[key], s, m) && Lookup(s, v).IntV? && LoV(g, v, s, m) <= Now(v, s) <= HiV(g, v, s, m)
  }

  /** All iterations executed in front of loop `key` are done. */
  ghost predicate ExecutedDone(g: Tables, t: Tree, key: string, s: State, m: Model)
    requires WellFormedTables(g) && key in g.loops
  {
    forall u, env | u in Nodes(t) && u.Leaf? && InPlace(g, u) && IsIteration(g, Key(u), env, s, m)
      && Executed(g, Key(u), key, env, s) ::
      DoneAt(g, u, env, s, m)
  }

  ghost predicate Ideal(g: Tables, t: Tree, key: string, s: State, m: Model)
    requires WellFormedTables(g)
  {
    key in g.loops && BoundsAt(g, key, s, m) && ExecutedDone(g, t, key, s, m)
  }

  ghost function Inv(g: Tables, t: Tree, m: Model): Reading
    requires WellFormedTables(g)
  {
    (key: string, s: State) => Ideal(g, t, key, s, m)
  }

  // ----- kids -----

  /** A leaf is around no loop. */
  lemma LeafAroundNone(g: Tables, t: Tree, u: Tree, k: string)
    requires World(g, t) && u in Nodes(t) && u.Leaf? && k in g.loops && WellFormedTables(g)
    ensures InPlace(g, u) && LoopOf(u) !in g.containing[k]
  {
    hide LoopKey, LoopOf, Flatten, TablesOf, WellFormedTables, IsNesting, WellFormedTree, ProgramTables;
    WorldTables(g, t);
    WorldPlaces(g, t, u);
    var con := g.containing[k];
    if b :| 0 <= b < |con| && con[b] == LoopOf(u) {
      Branch(g, TreeVars(t), k, b + 1);
      var w := PathOf(g, k)[b + 1];
      ParentKnown(g, LoopKey(w));
      assert g.containing[LoopKey(w)][b] == LoopOf(u);
      var i := LoopIsKid(u, w);
    }
  }

  lemma DistinctInside(t: Tree, u: Tree)
    requires u in Nodes(t) && DistinctLoops(LoopOf(t))
    ensures DistinctLoops(LoopOf(u))
    decreases t
  {
    hide LoopKey, LoopOf, KidsStmt, LoopKeys, DistinctLoops;
    if u != t {
      var i :| 0 <= i < |t.kids| && u in Nodes(t.kids[i]);
      InnerDistinct(t);
      KidsDistinct(t, |t.kids|, i, i);
      DistinctInside(t.kids[i], u);
    }
  }

  /** The kid of node `n` in which a leaf lies, when it lies in the node. */
  lemma KidOf(g: Tables, t: Tree, n: Tree, u: Tree) returns (i: nat)
    requires World(g, t) && WellFormedTables(g) && n in Nodes(t) && n.Node? && n.kids != [] && u in Nodes(t) && u.Leaf?
    requires InPlace(g, n) && InPlace(g, u) && PathOf(g, Key(n)) < PathOf(g, Key(u))
    ensures i < |n.kids| && InPlace(g, n.kids[i]) && PathOf(g, Key(u))[|PathOf(g, Key(n))|] == LoopOf(n.kids[i])
    ensures BranchOf(g, Key(u), Key(n)) == Key(n.kids[i])
  {
    hide LoopKey, LoopOf, Flatten, TablesOf, WellFormedTables, IsNesting, WellFormedTree, ProgramTables;
    var p, q := PathOf(g, Key(n)), PathOf(g, Key(u));
    Branch(g, TreeVars(t), Key(u), |p|);
    var w := q[|p|];
    assert q[..|p|] == p;
    WorldPlaces(g, t, n);
    ParentKnown(g, LoopKey(w));
    i := LoopIsKid(n, w);
    PlaceKid(g, n, i);
  }

  /** Kids are ordered by their place. */
  lemma KidsOrdered(g: Tables, t: Tree, n: Tree, i: nat, j: nat)
    requires World(g, t) && n in Nodes(t) && n.Node? && i < |n.kids| && j < |n.kids|
    ensures InPlace(g, n) && InPlace(g, n.kids[i]) && InPlace(g, n.kids[j])
    ensures StandsBefore(g, Key(n.kids[i]), Key(n.kids[j])) <==> i < j
    ensures Key(n.kids[i]) == Key(n.kids[j]) <==> i == j
  {
    hide LoopKey, LoopOf, Flatten, TablesOf, WellFormedTables, IsNesting, ProgramTables, WellScoped, VarsApart,
      DistinctLoops;
    WorldPlaces(g, t, n);
    PlaceKid(g, n, i);
    PlaceKid(g, n, j);
    DistinctTree(t);
    DistinctInside(t, n);
    KidOrder(n, i, j);
    BlockOfKid(g, n, j);
  }

  lemma DistinctTree(t: Tree)
    requires DistinctLoops(Whole(t))
    ensures DistinctLoops(LoopOf(t))
  {
    hide LoopKey, LoopOf;
  }

  lemma BlockOfKid(g: Tables, n: Tree, j: nat)
    requires n.Node? && j < |n.kids| && InPlace(g, n) && InPlace(g, n.kids[j])
    requires PathOf(g, Key(n.kids[j])) == PathOf(g, Key(n)) + [LoopOf(n.kids[j])]
    ensures BlockOf(g, Key(n.kids[j])) == Flatten(LoopOf(n).body)
  {
    hide LoopKey, LoopOf, Flatten;
    var con := g.containing[Key(n.kids[j])];
    assert con == PathOf(g, Key(n)) && con[|con| - 1] == LoopOf(n);
  }

  /** What has been executed in front of kid `j`, by what has been in front of the node. */
  lemma InFrontOfChild(g: Tables, t: Tree, n: Tree, j: nat, u: Tree, env: string -> int, s: State, w: int)
    requires World(g, t) && WellFormedTables(g) && n in Nodes(t) && n.Node? && j < |n.kids| && u in Nodes(t) && u.Leaf?
    ensures InPlace(g, n) && InPlace(g, n.kids[j]) && InPlace(g, u)
    ensures var x, p, k := Key(u), Key(n), Key(n.kids[j]);
      Executed(g, x, k, env, s[n.kids[j].v := IntV(w)]) <==>
        || Executed(g, x, p, env, s)
        || (InCurrent(g, x, p, env, s) && (BeforeBranch(g, x, k, p) || (InBranch(g, x, k, p) && env(n.kids[j].v) < w)))
  {
    hide LoopKey, LoopOf, World, WellFormedTables, Executed, StandsBefore, CurrentUpTo, PathOf, Nodes, BeforeBranch,
      InBranch;
    WorldTables(g, t);
    WorldPlaces(g, t, u);
    KidVarNew(g, t, n, j, s, w);
    var x, p, k, v := Key(u), Key(n), Key(n.kids[j]), n.kids[j].v;
    var s' := s[v := IntV(w)];
    LeafOffPath(g, t, u, n, j);
    ExecutedInChild(g, TreeVars(t), x, k, p, env, s');
    ExecutedFrame(g, TreeVars(t), x, p, env, s, s');
    CurrentFrame(PathOf(g, p), env, s, s');
  }

  lemma LeafOffPath(g: Tables, t: Tree, u: Tree, n: Tree, j: nat)
    requires World(g, t) && WellFormedTables(g) && n in Nodes(t) && n.Node? && j < |n.kids| && u in Nodes(t) && u.Leaf?
    requires InPlace(g, n) && InPlace(g, n.kids[j])
    requires PathOf(g, Key(n.kids[j])) == PathOf(g, Key(n)) + [LoopOf(n.kids[j])]
    ensures InPlace(g, u) && g.loops[Key(u)] !in PathOf(g, Key(n)) && ChildOf(g, Key(n.kids[j]), Key(n))
  {
    hide LoopKey, LoopOf, World, WellFormedTables, Nodes;
    LeafAroundNone(g, t, u, Key(n.kids[j]));
    var q := PathOf(g, Key(n.kids[j]));
    assert q[..|q| - 1] == PathOf(g, Key(n)) == g.containing[Key(n.kids[j])];
  }

  /** The same by the number of the kid in which the leaf lies. */
  lemma InFrontOfKid(g: Tables, t: Tree, n: Tree, j: nat, u: Tree, env: string -> int, s: State, w: int)
    returns (i: nat)
    requires World(g, t) && WellFormedTables(g) && n in Nodes(t) && n.Node? && j < |n.kids| && u in Nodes(t) && u.Leaf?
    ensures InPlace(g, n) && InPlace(g, n.kids[j]) && InPlace(g, u)
    ensures var x, p, k := Key(u), Key(n), Key(n.kids[j]);
      && (InCurrent(g, x, p, env, s) ==> i < |n.kids| && InKid(g, n, i, u))
      && (Executed(g, x, k, env, s[n.kids[j].v := IntV(w)]) <==>
            Executed(g, x, p, env, s) || (InCurrent(g, x, p, env, s) && (i < j || (i == j && env(n.kids[j].v) < w))))
  {
    hide LoopKey, LoopOf, World, WellFormedTables, Executed, StandsBefore, CurrentUpTo, PathOf, Nodes;
    WorldPlaces(g, t, n);
    WorldPlaces(g, t, u);
    InFrontOfChild(g, t, n, j, u, env, s, w);
    i := 0;
    if InCurrent(g, Key(u), Key(n), env, s) {
      i := KidOf(g, t, n, u);
      KidsOrdered(g, t, n, i, j);
    }
  }

  /** Leaf `u` lies in kid `i` of the node, or is it. */
  ghost predicate InKid(g: Tables, n: Tree, i: nat, u: Tree)
    requires InPlace(g, n) && InPlace(g, u) && n.Node? && i < |n.kids|
  {
    |PathOf(g, Key(n))| < |PathOf(g, Key(u))| && PathOf(g, Key(u))[|PathOf(g, Key(n))|] == LoopOf(n.kids[i])
  }

  lemma CurrentFrame(p: seq<Stmt>, env: string -> int, s: State, t: State)
    requires forall b | 0 <= b < |p| :: Now(IterVar(p[b]), t) == Now(IterVar(p[b]), s)
    ensures CurrentUpTo(p, |p|, env, t) <==> CurrentUpTo(p, |p|, env, s)
  {
  }

  /** A kid's variable is not one of the loops around it. */
  lemma KidVarNew(g: Tables, t: Tree, n: Tree, j: nat, s: State, w: int)
    requires World(g, t) && n in Nodes(t) && n.Node? && j < |n.kids|
    ensures InPlace(g, n) && InPlace(g, n.kids[j]) && IterVar(g.loops[Key(n.kids[j])]) == n.kids[j].v
    ensures PathOf(g, Key(n.kids[j])) == PathOf(g, Key(n)) + [LoopOf(n.kids[j])]
    ensures var p, v := PathOf(g, Key(n)), n.kids[j].v;
      && (forall b | 0 <= b < |p| ::
        IterVar(p[b]) != v && Lookup(s[v := IntV(w)], IterVar(p[b])) == Lookup(s, IterVar(p[b]))
                                     && Now(IterVar(p[b]), s[v := IntV(w)]) == Now(IterVar(p[b]), s))
      && Now(v, s[v := IntV(w)]) == w
  {
    hide LoopKey, LoopOf, Flatten, TablesOf, WellFormedTables, IsNesting, ProgramTables, WellFormedTree;
    WorldPlaces(g, t, n);
    PlaceKid(g, n, j);
    var p, k := PathOf(g, Key(n)), Key(n.kids[j]);
    var q := PathOf(g, k);
    PathVars(g, TreeVars(t), k);
    forall b | 0 <= b < |p| ensures IterVar(p[b]) != n.kids[j].v {
      assert q[b] == p[b] && q[|p|] == LoopOf(n.kids[j]);
    }
  }

  // ----- bounds -----

  /** Assigning what the program changes moves no bound of the tables. */
  lemma TableBoundsKept(g: Tables, t: Tree, v: string, s: State, x: string, w: Value, m: Model)
    requires World(g, t) && x in Changing(t)
    ensures LoV(g, v, s[x := w], m) == LoV(g, v, s, m) && HiV(g, v, s[x := w], m) == HiV(g, v, s, m)
  {
    hide LoopKey, World, WellFormedTables, Eval, Changing;
    WorldTables(g, t);
    if v in g.nesting {
      var u := TableBounds(g, t, v);
      BoundsKept(g, t, u, s, x, w, m);
    }
  }

  lemma InsideKept(g: Tables, t: Tree, p: seq<Stmt>, s: State, x: string, w: Value, m: Model)
    requires World(g, t) && x in Changing(t) && forall b | 0 <= b < |p| :: IterVar(p[b]) != x
    ensures InsideAll(g, p, s[x := w], m) <==> InsideAll(g, p, s, m)
  {
    hide LoopKey, World, Changing, LoV, HiV, IterVar;
    forall b | 0 <= b < |p|
      ensures LoV(g, IterVar(p[b]), s[x := w], m) == LoV(g, IterVar(p[b]), s, m)
      ensures HiV(g, IterVar(p[b]), s[x := w], m) == HiV(g, IterVar(p[b]), s, m)
    {
      TableBoundsKept(g, t, IterVar(p[b]), s, x, w, m);
    }
  }

  /** The bounds of a kid are those of an iteration of the node, and its own. */
  lemma KidBounds(g: Tables, t: Tree, n: Tree, j: nat, s: State, w: int, m: Model)
    requires World(g, t) && n in Nodes(t) && n.Node? && j < |n.kids|
    ensures InPlace(g, n) && InPlace(g, n.kids[j])
    ensures BoundsAt(g, Key(n.kids[j]), s[n.kids[j].v := IntV(w)], m) <==>
      InsideAll(g, PathOf(g, Key(n)), s, m) && LoV(g, n.kids[j].v, s, m) <= w <= HiV(g, n.kids[j].v, s, m)
  {
    hide LoopKey, LoopOf, World, InsideAll, LoV, HiV, PathOf, Nodes;
    KidVarNew(g, t, n, j, s, w);
    var v := n.kids[j].v;
    KidChanges(t, n, j);
    InsideKept(g, t, PathOf(g, Key(n)), s, v, IntV(w), m);
    TableBoundsKept(g, t, v, s, v, IntV(w), m);
    var q := PathOf(g, Key(n.kids[j]));
    assert q[..|q| - 1] == PathOf(g, Key(n));
  }

  lemma KidChanges(t: Tree, n: Tree, j: nat)
    requires n in Nodes(t) && n.Node? && j < |n.kids|
    ensures n.kids[j] in Nodes(t) && n.kids[j].v in Changing(t) && n.v in Changing(t)
  {
    hide Nodes, TreeVars, Outs;
    NodesNest(t, n);
    KidIn(n, j);
    InVars(t, n.kids[j]);
    InVars(t, n);
  }

  /** Inside an iteration of node `n`: its bounds and its test. */
  lemma InsideNode(g: Tables, t: Tree, n: Tree, s: State, m: Model)
    requires World(g, t) && n in Nodes(t)
    ensures InPlace(g, n)
    ensures InsideAll(g, PathOf(g, Key(n)), s, m) <==> BoundsAt(g, Key(n), s, m) && Now(n.v, s) < HiV(g, n.v, s, m)
  {
    hide LoopKey, LoopOf, World, LoV, HiV, Nodes;
    WorldPlaces(g, t, n);
    var q := PathOf(g, Key(n));
    assert q == g.containing[Key(n)] + [LoopOf(n)];
    assert forall b | 0 <= b < |q| - 1 :: q[b] == g.containing[Key(n)][b];
  }

  /** One iteration further, its own loop may have ended. */
  lemma NextBounds(g: Tables, t: Tree, n: Tree, s: State, m: Model)
    requires World(g, t) && n in Nodes(t)
    ensures InPlace(g, n)
    ensures InsideAll(g, PathOf(g, Key(n)), s, m) ==> BoundsAt(g, Key(n), s[n.v := IntV(Now(n.v, s) + 1)], m)
  {
    hide LoopKey, LoopOf, World, LoV, HiV, Nodes, InsideAll, Changing;
    WorldPlaces(g, t, n);
    InsideNode(g, t, n, s, m);
    OwnVarOffPath(g, t, n);
    NodeChanges(t, n);
    InsideKept(g, t, g.containing[Key(n)], s, n.v, IntV(Now(n.v, s) + 1), m);
    TableBoundsKept(g, t, n.v, s, n.v, IntV(Now(n.v, s) + 1), m);
  }

  lemma NodeChanges(t: Tree, n: Tree)
    requires n in Nodes(t)
    ensures n.v in Changing(t)
  {
    hide Nodes;
    InVars(t, n);
  }

  lemma OwnVarOffPath(g: Tables, t: Tree, n: Tree)
    requires World(g, t) && n in Nodes(t)
    ensures InPlace(g, n) && forall b | 0 <= b < |g.containing[Key(n)]| :: IterVar(g.containing[Key(n)][b]) != n.v
  {
    hide LoopKey, LoopOf, Flatten, TablesOf, WellFormedTables, IsNesting, ProgramTables, WellFormedTree;
    WorldPlaces(g, t, n);
    var q := PathOf(g, Key(n));
    PathVars(g, TreeVars(t), Key(n));
    forall b | 0 <= b < |q| - 1 ensures IterVar(g.containing[Key(n)][b]) != n.v {
      assert q[b] == g.containing[Key(n)][b] && q[|q| - 1] == LoopOf(n);
    }
  }

  // ----- what is done -----

  /** A leaf's final values do not move when a loop variable is assigned. */
  lemma DoneKept(g: Tables, t: Tree, u: Tree, env: string -> int, s: State, x: string, w: Value, m: Model)
    requires World(g, t) && WellFormedTables(g) && u in Nodes(t) && u.Leaf? && x in TreeVars(t)
    ensures InPlace(g, u)
    ensures DoneAt(g, u, env, s[x := w], m) <==> DoneAt(g, u, env, s, m)
    ensures IsIteration(g, Key(u), env, s[x := w], m) <==> IsIteration(g, Key(u), env, s, m)
  {
    hide LoopKey, LoopOf, World, WellFormedTables, DoneAt, IsIteration, Nodes, TreeVars, Outs;
    WorldScope(g, t, u);
    LeafKept(g, t, u, env, s, x, w, m);
    IterationKept(g, t, Key(u), env, s, x, w, m);
  }

  /** `ExecutedDone` in front of `k` in `s`, given that less has been executed than in front of `l` in `r`,
      where the states differ in loop variables. */
  ghost predicate NoMore(g: Tables, t: Tree, k: string, s: State, l: string, r: State, m: Model)
    requires WellFormedTables(g) && k in g.loops && l in g.loops
  {
    forall u, env {:trigger IsIteration(g, Key(u), env, s, m)} |
      && u in Nodes(t) && u.Leaf? && InPlace(g, u) && IsIteration(g, Key(u), env, s, m)
      && Executed(g, Key(u), k, env, s) ::
      Executed(g, Key(u), l, env, r)
  }

  /** The same iterations, and the same of them done. */
  ghost predicate Alike(g: Tables, t: Tree, s: State, r: State, m: Model)
    requires WellFormedTables(g)
  {
    forall u, env | u in Nodes(t) && u.Leaf? && InPlace(g, u) ::
      && (DoneAt(g, u, env, s, m) <==> DoneAt(g, u, env, r, m))
      && (IsIteration(g, Key(u), env, s, m) <==> IsIteration(g, Key(u), env, r, m))
  }

  lemma AssignAlike(g: Tables, t: Tree, s: State, x: string, w: Value, m: Model)
    requires World(g, t) && WellFormedTables(g) && x in TreeVars(t)
    ensures Alike(g, t, s, s[x := w], m)
  {
    hide LoopKey, LoopOf, World, WellFormedTables, DoneAt, IsIteration, Nodes, TreeVars, InPlace;
    forall u, env | u in Nodes(t) && u.Leaf? && InPlace(g, u)
      ensures Key(u) in g.loops
      ensures DoneAt(g, u, env, s, m) <==> DoneAt(g, u, env, s[x := w], m)
      ensures IsIteration(g, Key(u), env, s, m) <==> IsIteration(g, Key(u), env, s[x := w], m)
    {
      AtIsLoop(g, u);
      DoneKept(g, t, u, env, s, x, w, m);
    }
  }

  lemma AlikeTwice(g: Tables, t: Tree, s: State, r: State, q: State, m: Model)
    requires WellFormedTables(g) && Alike(g, t, s, r, m) && Alike(g, t, s, q, m)
    ensures Alike(g, t, r, q, m) && Alike(g, t, r, s, m)
  {
    hide LoopKey, LoopOf, DoneAt, IsIteration, Nodes, WellFormedTables;
  }

  lemma DoneFollows(g: Tables, t: Tree, k: string, s: State, l: string, r: State, m: Model)
    requires WellFormedTables(g) && k in g.loops && l in g.loops && Alike(g, t, s, r, m)
    requires NoMore(g, t, k, s, l, r, m) && ExecutedDone(g, t, l, r, m)
    ensures ExecutedDone(g, t, k, s, m)
  {
    hide LoopKey, LoopOf, DoneAt, IsIteration, Nodes, WellFormedTables, Executed, InPlace;
    forall u | u in Nodes(t) && InPlace(g, u) ensures Key(u) in g.loops && Key(u) in g.containing { AtIsLoop(g, u); }
  }

  // ----- along a run -----

  /** An iteration respects the bounds of the kid it lies in. */
  lemma IterationInKid(g: Tables, t: Tree, n: Tree, i: nat, u: Tree, env: string -> int, s: State, m: Model)
    requires World(g, t) && WellFormedTables(g) && n in Nodes(t) && n.Node? && i < |n.kids|
    requires InPlace(g, n) && InPlace(g, u) && InKid(g, n, i, u) && IsIteration(g, Key(u), env, s, m)
    ensures LoV(g, n.kids[i].v, s, m) <= env(n.kids[i].v) < HiV(g, n.kids[i].v, s, m)
  {
    hide LoopKey, LoopOf, World, WellFormedTables, Eval, Nodes;
    KidVarNew(g, t, n, i, s, 0);
    KidChanges(t, n, i);
    WorldBounds(g, t, n.kids[i]);
  }

  lemma KidRange(g: Tables, t: Tree, n: Tree, j: nat, s: State, m: Model)
    requires World(g, t) && n in Nodes(t) && n.Node? && j < |n.kids| && WellFormedTables(g) && AssumedIn(g, t, s, m)
    ensures LoV(g, n.kids[j].v, s, m) < HiV(g, n.kids[j].v, s, m)
  {
    hide LoopKey, LoopOf, World, WellFormedTables, Eval, Nodes;
    KidChanges(t, n, j);
    WorldBounds(g, t, n.kids[j]);
  }

  lemma KidVarIn(t: Tree, n: Tree, j: nat)
    requires n in Nodes(t) && n.Node? && j < |n.kids|
    ensures n.kids[j].v in TreeVars(t)
  {
    hide Nodes;
    KidChanges(t, n, j);
    InVars(t, n.kids[j]);
  }

  /** Entering the first kid. */
  lemma Enter(g: Tables, t: Tree, n: Tree, s: State, m: Model)
    requires World(g, t) && WellFormedTables(g) && n in Nodes(t) && n.Node? && n.kids != [] && AssumedIn(g, t, s, m)
    requires Ideal(g, t, Key(n), s, m) && Now(n.v, s) < HiV(g, n.v, s, m)
    ensures Ideal(g, t, Key(n.kids[0]), s[n.kids[0].v := IntV(LoV(g, n.kids[0].v, s, m))], m)
  {
    hide LoopKey, LoopOf, World, WellFormedTables, Nodes, IsIteration, Executed, ExecutedDone, BoundsAt, LoV, HiV,
      InKid, InCurrent, DoneAt, NoMore, TreeVars, Alike, AssumedIn, InsideAll, InPlace;
    var v, lo := n.kids[0].v, LoV(g, n.kids[0].v, s, m);
    InsideNode(g, t, n, s, m);
    KidBounds(g, t, n, 0, s, lo, m);
    KidRange(g, t, n, 0, s, m);
    KidVarIn(t, n, 0);
    AssignAlike(g, t, s, v, IntV(lo), m);
    AlikeTwice(g, t, s, s[v := IntV(lo)], s[v := IntV(lo)], m);
    KidInPlace(g, t, n, 0);
    EnterSet(g, t, n, s, lo, m);
    DoneFollows(g, t, Key(n.kids[0]), s[v := IntV(lo)], Key(n), s, m);
  }

  lemma PlacedAreLoops(g: Tables)
    ensures forall u | InPlace(g, u) :: Key(u) in g.loops && Key(u) in g.containing
  {
    hide LoopKey, LoopOf;
  }

  lemma KidInPlace(g: Tables, t: Tree, n: Tree, j: nat)
    requires World(g, t) && n in Nodes(t) && n.Node? && j < |n.kids|
    ensures InPlace(g, n) && InPlace(g, n.kids[j]) && Key(n) in g.loops && Key(n.kids[j]) in g.loops
  {
    hide LoopKey, LoopOf, World, Nodes;
    KidVarNew(g, t, n, j, map[], 0);
  }

  lemma EnterSet(g: Tables, t: Tree, n: Tree, s: State, lo: int, m: Model)
    requires World(g, t) && WellFormedTables(g) && n in Nodes(t) && n.Node? && n.kids != []
    requires lo == LoV(g, n.kids[0].v, s, m)
    requires Key(n) in g.loops && Key(n.kids[0]) in g.loops && Alike(g, t, s, s[n.kids[0].v := IntV(lo)], m)
    ensures NoMore(g, t, Key(n.kids[0]), s[n.kids[0].v := IntV(lo)], Key(n), s, m)
  {
    hide LoopKey, LoopOf, World, WellFormedTables, Nodes, IsIteration, Executed, LoV, HiV, InKid, InCurrent, DoneAt,
      InPlace;
    PlacedAreLoops(g);
    var k, s' := Key(n.kids[0]), s[n.kids[0].v := IntV(lo)];
    forall u, env | u in Nodes(t) && u.Leaf? && InPlace(g, u) && Key(u) in g.loops
      && IsIteration(g, Key(u), env, s', m) && Executed(g, Key(u), k, env, s')
      ensures Executed(g, Key(u), Key(n), env, s)
    {
      var i := InFrontOfKid(g, t, n, 0, u, env, s, lo);
      if InCurrent(g, Key(u), Key(n), env, s) && i == 0 { IterationInKid(g, t, n, 0, u, env, s, m); }
    }
  }

  /** From the end of a kid to the beginning of the next. */
  lemma Between(g: Tables, t: Tree, n: Tree, j: nat, s: State, m: Model)
    requires World(g, t) && WellFormedTables(g) && n in Nodes(t) && n.Node? && 0 < j < |n.kids| && AssumedIn(g, t, s, m)
    requires Ideal(g, t, Key(n.kids[j - 1]), s[n.kids[j - 1].v := IntV(HiV(g, n.kids[j - 1].v, s, m))], m)
    ensures Ideal(g, t, Key(n.kids[j]), s[n.kids[j].v := IntV(LoV(g, n.kids[j].v, s, m))], m)
  {
    hide LoopKey, LoopOf, World, WellFormedTables, Nodes, IsIteration, Executed, ExecutedDone, BoundsAt, LoV, HiV,
      InKid, InCurrent, DoneAt, NoMore, TreeVars, Alike, AssumedIn, InsideAll, InPlace;
    var x, hi, y, lo := n.kids[j - 1].v, HiV(g, n.kids[j - 1].v, s, m), n.kids[j].v, LoV(g, n.kids[j].v, s, m);
    KidBounds(g, t, n, j - 1, s, hi, m);
    KidBounds(g, t, n, j, s, lo, m);
    KidRange(g, t, n, j, s, m);
    KidVarIn(t, n, j - 1);
    KidVarIn(t, n, j);
    AssignAlike(g, t, s, x, IntV(hi), m);
    AssignAlike(g, t, s, y, IntV(lo), m);
    AlikeTwice(g, t, s, s[y := IntV(lo)], s[x := IntV(hi)], m);
    KidInPlace(g, t, n, j - 1);
    KidInPlace(g, t, n, j);
    BetweenSet(g, t, n, j, s, hi, lo, m);
    DoneFollows(g, t, Key(n.kids[j]), s[y := IntV(lo)], Key(n.kids[j - 1]), s[x := IntV(hi)], m);
  }

  lemma BetweenSet(g: Tables, t: Tree, n: Tree, j: nat, s: State, hi: int, lo: int, m: Model)
    requires World(g, t) && WellFormedTables(g) && n in Nodes(t) && n.Node? && 0 < j < |n.kids|
    requires hi == HiV(g, n.kids[j - 1].v, s, m) && lo == LoV(g, n.kids[j].v, s, m)
    requires Key(n.kids[j - 1]) in g.loops && Key(n.kids[j]) in g.loops && Alike(g, t, s, s[n.kids[j].v := IntV(lo)], m)
    ensures NoMore(g, t, Key(n.kids[j]), s[n.kids[j].v := IntV(lo)], Key(n.kids[j - 1]),
                   s[n.kids[j - 1].v := IntV(hi)], m)
  {
    hide LoopKey, LoopOf, World, WellFormedTables, Nodes, IsIteration, Executed, LoV, HiV, InKid, InCurrent, DoneAt,
      InPlace;
    PlacedAreLoops(g);
    KidInPlace(g, t, n, j);
    var k, s', l, r := Key(n.kids[j]), s[n.kids[j].v := IntV(lo)], Key(n.kids[j - 1]), s[n.kids[j - 1].v := IntV(hi)];
    forall u, env | u in Nodes(t) && u.Leaf? && InPlace(g, u) && Key(u) in g.loops
      && IsIteration(g, Key(u), env, s', m) && Executed(g, Key(u), k, env, s')
      ensures Executed(g, Key(u), l, env, r)
    {
      var i := InFrontOfKid(g, t, n, j, u, env, s, lo);
      var i' := InFrontOfKid(g, t, n, j - 1, u, env, s, hi);
      if InCurrent(g, Key(u), Key(n), env, s) {
        SameKid(g, t, n, i, i', u);
        IterationInKid(g, t, n, i, u, env, s, m);
      }
    }
  }

  lemma SameKid(g: Tables, t: Tree, n: Tree, i: nat, j: nat, u: Tree)
    requires World(g, t) && n in Nodes(t) && n.Node? && i < |n.kids| && j < |n.kids|
    requires InPlace(g, n) && InPlace(g, u) && InKid(g, n, i, u) && InKid(g, n, j, u)
    ensures i == j
  {
    hide LoopKey, LoopOf, World, Nodes;
    KidsOrdered(g, t, n, i, j);
  }

  /** Behind the last kid, the node's next iteration. */
  lemma Leave(g: Tables, t: Tree, n: Tree, s: State, m: Model)
    requires World(g, t) && WellFormedTables(g) && n in Nodes(t) && n.Node? && n.kids != [] && AssumedIn(g, t, s, m)
    requires var last := n.kids[|n.kids| - 1]; Ideal(g, t, Key(last), s[last.v := IntV(HiV(g, last.v, s, m))], m)
    ensures Lookup(s, n.v).IntV? && Ideal(g, t, Key(n), s[n.v := IntV(Now(n.v, s) + 1)], m)
  {
    hide LoopKey, LoopOf, World, WellFormedTables, Nodes, IsIteration, Executed, ExecutedDone, BoundsAt, LoV, HiV,
      InKid, InCurrent, DoneAt, NoMore, TreeVars, Alike, AssumedIn, InsideAll, InPlace;
    var j := |n.kids| - 1;
    var x, hi := n.kids[j].v, HiV(g, n.kids[j].v, s, m);
    KidBounds(g, t, n, j, s, hi, m);
    NodeInt(g, t, n, s, m);
    NextBounds(g, t, n, s, m);
    KidVarIn(t, n, j);
    NodeVarIn(t, n);
    AssignAlike(g, t, s, x, IntV(hi), m);
    AssignAlike(g, t, s, n.v, IntV(Now(n.v, s) + 1), m);
    AlikeTwice(g, t, s, s[n.v := IntV(Now(n.v, s) + 1)], s[x := IntV(hi)], m);
    KidInPlace(g, t, n, j);
    LeaveSet(g, t, n, s, hi, m);
    DoneFollows(g, t, Key(n), s[n.v := IntV(Now(n.v, s) + 1)], Key(n.kids[j]), s[x := IntV(hi)], m);
  }

  lemma NodeVarIn(t: Tree, n: Tree)
    requires n in Nodes(t)
    ensures n.v in TreeVars(t)
  {
    hide Nodes;
    InVars(t, n);
  }

  lemma NodeInt(g: Tables, t: Tree, n: Tree, s: State, m: Model)
    requires World(g, t) && n in Nodes(t)
    ensures InPlace(g, n) && (InsideAll(g, PathOf(g, Key(n)), s, m) ==> Lookup(s, n.v).IntV?)
  {
    hide LoopKey, LoopOf, World, Nodes, LoV, HiV;
    WorldPlaces(g, t, n);
    var q := PathOf(g, Key(n));
    assert q[|q| - 1] == LoopOf(n);
  }

  lemma LeaveSet(g: Tables, t: Tree, n: Tree, s: State, hi: int, m: Model)
    requires World(g, t) && WellFormedTables(g) && n in Nodes(t) && n.Node? && n.kids != []
    requires var j := |n.kids| - 1;
      && hi == HiV(g, n.kids[j].v, s, m) && Key(n) in g.loops && Key(n.kids[j]) in g.loops
      && Alike(g, t, s, s[n.v := IntV(Now(n.v, s) + 1)], m)
    ensures var last := n.kids[|n.kids| - 1];
      NoMore(g, t, Key(n), s[n.v := IntV(Now(n.v, s) + 1)], Key(last), s[last.v := IntV(hi)], m)
  {
    hide LoopKey, LoopOf, World, WellFormedTables, Nodes, IsIteration, Executed, LoV, HiV, InKid, InCurrent, DoneAt,
      InPlace;
    PlacedAreLoops(g);
    var j := |n.kids| - 1;
    var s', l, r := s[n.v := IntV(Now(n.v, s) + 1)], Key(n.kids[j]), s[n.kids[j].v := IntV(hi)];
    forall u, env | u in Nodes(t) && u.Leaf? && InPlace(g, u) && Key(u) in g.loops
      && IsIteration(g, Key(u), env, s', m) && Executed(g, Key(u), Key(n), env, s')
      ensures Executed(g, Key(u), l, env, r)
    {
      var i := InFrontOfKid(g, t, n, j, u, env, s, hi);
      OneMoreOfNode(g, t, n, u, env, s);
      if InCurrent(g, Key(u), Key(n), env, s) { IterationInKid(g, t, n, i, u, env, s, m); }
    }
  }

  /** A loop's next iteration adds what lies in the current one. */
  lemma NextIn(g: Tables, t: Tree, n: Tree, x: string, env: string -> int, s: State)
    requires World(g, t) && WellFormedTables(g) && n in Nodes(t) && x in g.loops
    ensures InPlace(g, n) && x in g.containing
    ensures Executed(g, x, Key(n), env, s[n.v := IntV(Now(n.v, s) + 1)]) <==>
      || Executed(g, x, Key(n), env, s)
      || (LoopOf(n) in PathOf(g, x) && CurrentUpTo(PathOf(g, Key(n)), |PathOf(g, Key(n))|, env, s))
  {
    hide LoopKey, LoopOf, World, WellFormedTables, Executed, CurrentUpTo, Nodes, PathOf, InPlace, IterVar, Setup,
      TreeVars;
    WorldTables(g, t);
    LoopOfNode(g, t, n);
    ExecutedNext(g, TreeVars(t), x, Key(n), env, s);
  }

  lemma LoopOfNode(g: Tables, t: Tree, n: Tree)
    requires World(g, t) && n in Nodes(t)
    ensures InPlace(g, n) && Key(n) in g.loops && Key(n) in g.containing && g.loops[Key(n)] == LoopOf(n)
    ensures IterVar(LoopOf(n)) == n.v
  {
    hide LoopKey, LoopOf, World, Nodes;
    WorldPlaces(g, t, n);
  }

  /** A node's next iteration adds, for a leaf, what lies in the current one. */
  lemma OneMoreOfNode(g: Tables, t: Tree, n: Tree, u: Tree, env: string -> int, s: State)
    requires World(g, t) && WellFormedTables(g) && n in Nodes(t) && n.Node? && u in Nodes(t) && u.Leaf?
    ensures InPlace(g, n) && InPlace(g, u)
    ensures Executed(g, Key(u), Key(n), env, s[n.v := IntV(Now(n.v, s) + 1)]) ==>
      Executed(g, Key(u), Key(n), env, s) || InCurrent(g, Key(u), Key(n), env, s)
  {
    hide LoopKey, LoopOf, World, WellFormedTables, Executed, CurrentUpTo, Nodes;
    WorldPlaces(g, t, u);
    NextIn(g, t, n, Key(u), env, s);
    if LoopOf(n) in PathOf(g, Key(u)) { ProperlyInside(g, t, n, u); }
  }

  lemma ProperlyInside(g: Tables, t: Tree, n: Tree, u: Tree)
    requires World(g, t) && WellFormedTables(g) && n in Nodes(t) && n.Node? && u in Nodes(t) && u.Leaf?
    requires InPlace(g, n) && InPlace(g, u) && LoopOf(n) in PathOf(g, Key(u))
    ensures PathOf(g, Key(n)) < PathOf(g, Key(u))
  {
    hide LoopKey, LoopOf, TablesOf, WellFormedTables, WellFormedTree, Nodes, IsNesting, ProgramTables;
    var q := PathOf(g, Key(u));
    var b :| 0 <= b < |q| && q[b] == LoopOf(n);
    PathFacts(g, TreeVars(t), Key(u), b);
    assert q[..b + 1] == PathOf(g, Key(n));
    assert q[|q| - 1] == LoopOf(u);
    NodeIsNotLeaf(g, t, n, u);
  }

  lemma NodeIsNotLeaf(g: Tables, t: Tree, n: Tree, u: Tree)
    requires World(g, t) && n in Nodes(t) && n.Node? && u in Nodes(t) && u.Leaf?
    ensures LoopOf(n) != LoopOf(u)
  {
    hide LoopKey, TablesOf, Setup, Nodes, WellScoped, KidsStmt, DistinctLoops;
    if LoopOf(n) == LoopOf(u) { VarsUnique(t, n, u); }
  }
}
