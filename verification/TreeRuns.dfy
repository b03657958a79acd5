/** Loop trees compute: the write in a leaf, the conditions of the whole program, and its runs. */
module TreeRuns {
  import opened StencilIr
  import opened Interpret
  import opened VerifyTheorems
  import opened Termination
  import opened Invariant
  import opened Siblings
  import opened SiblingTables
  import opened SiblingCoverage
  import opened LoopOrder
  import opened NestMeaning
  import opened LoopTrees
  import opened TreeTables
  import opened TreeMeaning
  import opened TreeVcs
  import opened Hoare

  // ----- the write in a leaf -----

  function Written(u: Tree, s: State, m: Model): State
    requires u.Leaf?
  {
    s[u.out := Store(Lookup(s, u.out), Eval(u.idx, s, m), Eval(u.rhs, s, m))]
  }

  /** The current iteration. */
  function Current(s: State): string -> int { (v: string) => Now(v, s) }

  lemma CurrentValues(g: Tables, t: Tree, u: Tree, env: string -> int, s: State, m: Model)
    requires World(g, t) && u in Nodes(t) && u.Leaf? && InPlace(g, u)
    requires InsideAll(g, PathOf(g, Key(u)), s, m) && CurrentUpTo(PathOf(g, Key(u)), |PathOf(g, Key(u))|, env, s)
    ensures IndexAt(g, u, env, s, m) == Eval(u.idx, s, m) && ValueOf(g, u, env, s, m) == Eval(u.rhs, s, m)
  {
    hide LoopKey, LoopOf, World, Eval, Nodes, PathOf, PutAt, LoV, HiV;
    var p := PathOf(g, Key(u));
    forall x ensures Lookup(PutAt(s, p, env), x) == Lookup(s, x) {
      PutAtLookup(s, p, env, x);
    }
    Coincidence(u.idx, PutAt(s, p, env), s, m);
    Coincidence(u.rhs, PutAt(s, p, env), s, m);
  }

  lemma CurrentIsIteration(g: Tables, t: Tree, u: Tree, s: State, m: Model)
    requires World(g, t) && WellFormedTables(g) && u in Nodes(t) && InPlace(g, u)
    requires InsideAll(g, PathOf(g, Key(u)), s, m)
    ensures IsIteration(g, Key(u), Current(s), s, m)
    ensures CurrentUpTo(PathOf(g, Key(u)), |PathOf(g, Key(u))|, Current(s), s)
  {
    hide LoopKey, LoopOf, World, Eval, Nodes, PathOf, WellFormedTables, IterVar;
    WorldTables(g, t);
  }

  /** The write finishes the current iteration. */
  lemma WriteFinishes(g: Tables, t: Tree, u: Tree, env: string -> int, s: State, m: Model)
    requires World(g, t) && WellFormedTables(g) && u in Nodes(t) && u.Leaf? && InPlace(g, u) && AssumedIn(g, t, s, m)
    requires InsideAll(g, PathOf(g, Key(u)), s, m) && CurrentUpTo(PathOf(g, Key(u)), |PathOf(g, Key(u))|, env, s)
    requires IsIteration(g, Key(u), env, s, m)
    ensures DoneAt(g, u, env, Written(u, s, m), m)
  {
    hide LoopKey, LoopOf, World, Eval, Nodes, PathOf, WellFormedTables, IsIteration, IndexAt, ValueOf, InsideAll,
      CurrentUpTo, InPlace;
    CurrentValues(g, t, u, env, s, m);
    OutChanges(t, u);
    LeafKept(g, t, u, env, s, u.out, Store(Lookup(s, u.out), Eval(u.idx, s, m), Eval(u.rhs, s, m)), m);
    IndexIsInt(g, t, u, env, s, m);
  }

  lemma IndexIsInt(g: Tables, t: Tree, u: Tree, env: string -> int, s: State, m: Model)
    requires WellFormedTables(g) && u in Nodes(t) && u.Leaf? && InPlace(g, u) && AssumedIn(g, t, s, m)
    requires IsIteration(g, Key(u), env, s, m)
    ensures IndexAt(g, u, env, s, m).IntV?
  {
    hide LoopKey, LoopOf, Eval, Nodes, PathOf, WellFormedTables, IsIteration, IndexAt;
  }

  lemma OutChanges(t: Tree, u: Tree)
    requires u in Nodes(t) && u.Leaf?
    ensures u.out in Changing(t) && u.out in Outs(t)
  {
    hide Nodes;
  }

  /** It spoils no other iteration. */
  lemma WriteKeeps(g: Tables, t: Tree, u: Tree, env: string -> int, s: State, m: Model)
    requires World(g, t) && WellFormedTables(g) && u in Nodes(t) && u.Leaf? && InPlace(g, u) && AssumedIn(g, t, s, m)
    requires InsideAll(g, PathOf(g, Key(u)), s, m) && Differ(PathOf(g, Key(u)), env, Current(s))
    requires IsIteration(g, Key(u), env, s, m) && DoneAt(g, u, env, s, m)
    ensures DoneAt(g, u, env, Written(u, s, m), m)
  {
    hide LoopKey, LoopOf, World, Eval, Nodes, PathOf, WellFormedTables, IsIteration, IndexAt, ValueOf, InsideAll,
      CurrentUpTo, InPlace, Differ;
    CurrentIsIteration(g, t, u, s, m);
    CurrentValues(g, t, u, Current(s), s, m);
    OutChanges(t, u);
    LeafKept(g, t, u, env, s, u.out, Store(Lookup(s, u.out), Eval(u.idx, s, m), Eval(u.rhs, s, m)), m);
    IndexIsInt(g, t, u, env, s, m);
    IndexIsInt(g, t, u, Current(s), s, m);
    IndicesDiffer(g, t, u, env, Current(s), s, m);
  }

  lemma IndicesDiffer(g: Tables, t: Tree, u: Tree, env: string -> int, env': string -> int, s: State, m: Model)
    requires WellFormedTables(g) && u in Nodes(t) && u.Leaf? && InPlace(g, u) && AssumedIn(g, t, s, m)
    requires IsIteration(g, Key(u), env, s, m) && IsIteration(g, Key(u), env', s, m)
    requires Differ(PathOf(g, Key(u)), env, env')
    ensures IndexAt(g, u, env, s, m) != IndexAt(g, u, env', s, m)
  {
    hide LoopKey, LoopOf, Eval, Nodes, PathOf, WellFormedTables, IsIteration, IndexAt, Differ;
  }

  /** A leaf lies in no other leaf. */
  lemma LeafInLeaf(g: Tables, t: Tree, u: Tree, w: Tree)
    requires World(g, t) && WellFormedTables(g) && u in Nodes(t) && u.Leaf? && w in Nodes(t) && w.Leaf? && InPlace(g, u)
    requires InPlace(g, w)
    requires LoopOf(u) in PathOf(g, Key(w))
    ensures u == w
  {
    hide LoopKey, LoopOf, TablesOf, Setup, WellFormedTables, Nodes, WellScoped, DistinctLoops;
    LeafAroundNone(g, t, u, Key(w));
    var q := PathOf(g, Key(w));
    var b :| 0 <= b < |q| && q[b] == LoopOf(u);
    assert forall c | 0 <= c < |q| - 1 :: g.containing[Key(w)][c] == q[c];
    VarsUnique(t, u, w);
  }

  /** The write and the increment keep the invariant of a leaf. */
  lemma Step(g: Tables, t: Tree, u: Tree, s: State, m: Model)
    requires World(g, t) && WellFormedTables(g) && u in Nodes(t) && u.Leaf? && AssumedIn(g, t, s, m)
    requires Ideal(g, t, Key(u), s, m) && Now(u.v, s) < HiV(g, u.v, s, m)
    ensures var r := Written(u, s, m); Lookup(r, u.v).IntV? && Ideal(g, t, Key(u), r[u.v := IntV(Now(u.v, r) + 1)], m)
  {
    hide LoopKey, LoopOf, World, Eval, Nodes, PathOf, WellFormedTables, IsIteration, IndexAt, ValueOf, InsideAll,
      CurrentUpTo, InPlace, ExecutedDone, BoundsAt, DoneAt, AssumedIn, TreeVars, LoV, HiV, Executed, Written;
    var r := Written(u, s, m);
    var r' := r[u.v := IntV(Now(u.v, r) + 1)];
    PlacedAreLoops(g);
    InsideNode(g, t, u, s, m);
    InsideWritten(g, t, u, s, m);
    NodeInt(g, t, u, r, m);
    NextBounds(g, t, u, r, m);
    NodeVarIn(t, u);
    forall w, env | w in Nodes(t) && w.Leaf? && InPlace(g, w) && IsIteration(g, Key(w), env, r', m)
      && Executed(g, Key(w), Key(u), env, r')
      ensures DoneAt(g, w, env, r', m)
    {
      DoneKept(g, t, w, env, r, u.v, IntV(Now(u.v, r) + 1), m);
      IterationWritten(g, t, u, w, env, s, m);
      StepAt(g, t, u, w, env, s, m);
    }
    ExecutedDoneIntro(g, t, Key(u), r', m);
  }

  lemma ExecutedDoneIntro(g: Tables, t: Tree, key: string, s: State, m: Model)
    requires WellFormedTables(g) && key in g.loops
    requires forall w | InPlace(g, w) :: Key(w) in g.loops && Key(w) in g.containing
    requires forall w, env | w in Nodes(t) && w.Leaf? && InPlace(g, w) && IsIteration(g, Key(w), env, s, m)
      && Executed(g, Key(w), key, env, s) ::
      DoneAt(g, w, env, s, m)
    ensures ExecutedDone(g, t, key, s, m)
  {
    hide LoopKey, LoopOf, Nodes, WellFormedTables, IsIteration, DoneAt, Executed, InPlace;
  }

  /** The write moves no loop variable on any path. */
  lemma OutOffPaths(g: Tables, t: Tree, u: Tree, k: string)
    requires World(g, t) && WellFormedTables(g) && u in Nodes(t) && u.Leaf? && k in g.loops
    ensures k in g.containing && forall b | 0 <= b < |PathOf(g, k)| :: IterVar(PathOf(g, k)[b]) != u.out
  {
    hide LoopKey, LoopOf, TablesOf, WellFormedTables, Nodes, IsNesting, ProgramTables, WellScoped, VarsApart,
      DistinctLoops, TreeVars, Outs;
    WorldTables(g, t);
    OutChanges(t, u);
    forall b | 0 <= b < |PathOf(g, k)| ensures IterVar(PathOf(g, k)[b]) != u.out {
      Branch(g, TreeVars(t), k, b);
      var n := WorldNode(g, t, LoopKey(PathOf(g, k)[b]));
      WorldPlaces(g, t, n);
      NodeVarIn(t, n);
    }
  }

  lemma InsideWritten(g: Tables, t: Tree, u: Tree, s: State, m: Model)
    requires World(g, t) && WellFormedTables(g) && u in Nodes(t) && u.Leaf? && InPlace(g, u)
    ensures InsideAll(g, PathOf(g, Key(u)), Written(u, s, m), m) <==> InsideAll(g, PathOf(g, Key(u)), s, m)
  {
    hide LoopKey, LoopOf, World, Eval, Nodes, PathOf, WellFormedTables, InsideAll, Changing;
    OutOffPaths(g, t, u, Key(u));
    OutChanges(t, u);
    InsideKept(g, t, PathOf(g, Key(u)), s, u.out, Store(Lookup(s, u.out), Eval(u.idx, s, m), Eval(u.rhs, s, m)), m);
  }

  lemma IterationWritten(g: Tables, t: Tree, u: Tree, w: Tree, env: string -> int, s: State, m: Model)
    requires World(g, t) && WellFormedTables(g) && u in Nodes(t) && u.Leaf? && InPlace(g, w)
    ensures IsIteration(g, Key(w), env, Written(u, s, m), m) <==> IsIteration(g, Key(w), env, s, m)
  {
    hide LoopKey, LoopOf, World, Eval, Nodes, PathOf, WellFormedTables, IsIteration, Changing;
    OutChanges(t, u);
    IterationKept(g, t, Key(w), env, s, u.out, Store(Lookup(s, u.out), Eval(u.idx, s, m), Eval(u.rhs, s, m)), m);
  }

  /** What the write and the increment add to the executed iterations is done. */
  lemma StepAt(g: Tables, t: Tree, u: Tree, w: Tree, env: string -> int, s: State, m: Model)
    requires World(g, t) && WellFormedTables(g) && u in Nodes(t) && u.Leaf? && w in Nodes(t) && w.Leaf?
    requires AssumedIn(g, t, s, m)
    requires InPlace(g, u) && InPlace(g, w) && InsideAll(g, PathOf(g, Key(u)), s, m) && ExecutedDone(g, t, Key(u), s, m)
    requires IsIteration(g, Key(w), env, s, m)
    requires var r := Written(u, s, m); Executed(g, Key(w), Key(u), env, r[u.v := IntV(Now(u.v, r) + 1)])
    ensures DoneAt(g, w, env, Written(u, s, m), m)
  {
    hide LoopKey, LoopOf, World, Eval, Nodes, PathOf, WellFormedTables, IsIteration, IndexAt, ValueOf, InsideAll,
      CurrentUpTo, InPlace, DoneAt, AssumedIn, Executed;
    PlacedAreLoops(g);
    ExecutedBefore(g, t, u, w, env, s, m);
    if w != u {
      OutChanges(t, u);
      OutsApart(g, t, u, w);
      LeafKept(g, t, w, env, s, u.out, Store(Lookup(s, u.out), Eval(u.idx, s, m), Eval(u.rhs, s, m)), m);
    } else if CurrentUpTo(PathOf(g, Key(u)), |PathOf(g, Key(u))|, env, s) {
      WriteFinishes(g, t, u, env, s, m);
    } else {
      EarlierDiffers(g, t, u, env, s);
      WriteKeeps(g, t, u, env, s, m);
    }
  }

  lemma OutsApart(g: Tables, t: Tree, u: Tree, w: Tree)
    requires World(g, t) && u in Nodes(t) && u.Leaf? && w in Nodes(t) && w.Leaf? && u != w
    ensures u.out != w.out
  {
    hide LoopKey, LoopOf, TablesOf, Setup, Nodes, WellScoped, VarsApart, DistinctLoops;
  }

  /** The write moves nothing that orders iterations. */
  lemma OrderWritten(g: Tables, t: Tree, u: Tree, x: string, env: string -> int, s: State, m: Model)
    requires World(g, t) && WellFormedTables(g) && u in Nodes(t) && u.Leaf? && InPlace(g, u) && x in g.loops
    ensures Executed(g, x, Key(u), env, Written(u, s, m)) <==> Executed(g, x, Key(u), env, s)
    ensures var p := PathOf(g, Key(u)); CurrentUpTo(p, |p|, env, Written(u, s, m)) <==> CurrentUpTo(p, |p|, env, s)
  {
    hide LoopKey, LoopOf, World, Eval, Nodes, PathOf, WellFormedTables, CurrentUpTo, Executed, IterVar;
    WorldTables(g, t);
    OutOffPaths(g, t, u, Key(u));
    ExecutedFrame(g, TreeVars(t), x, Key(u), env, s, Written(u, s, m));
    CurrentFrame(PathOf(g, Key(u)), env, s, Written(u, s, m));
  }

  /** Executed in front of the next iteration: executed before, or the current iteration itself. */
  lemma ExecutedBefore(g: Tables, t: Tree, u: Tree, w: Tree, env: string -> int, s: State, m: Model)
    requires World(g, t) && WellFormedTables(g) && u in Nodes(t) && u.Leaf? && w in Nodes(t) && w.Leaf? && InPlace(g, u)
    requires InPlace(g, w)
    requires var r := Written(u, s, m); Executed(g, Key(w), Key(u), env, r[u.v := IntV(Now(u.v, r) + 1)])
    ensures Executed(g, Key(w), Key(u), env, s)
      || (w == u && CurrentUpTo(PathOf(g, Key(u)), |PathOf(g, Key(u))|, env, s))
  {
    hide LoopKey, LoopOf, World, Eval, Nodes, PathOf, WellFormedTables, CurrentUpTo, Executed, Written;
    PlacedAreLoops(g);
    NextOfLeaf(g, t, u, w, env, Written(u, s, m));
    OrderWritten(g, t, u, Key(w), env, s, m);
  }

  lemma NextOfLeaf(g: Tables, t: Tree, u: Tree, w: Tree, env: string -> int, r: State)
    requires World(g, t) && WellFormedTables(g) && u in Nodes(t) && u.Leaf? && w in Nodes(t) && w.Leaf? && InPlace(g, u)
    requires InPlace(g, w)
    requires Executed(g, Key(w), Key(u), env, r[u.v := IntV(Now(u.v, r) + 1)])
    ensures Executed(g, Key(w), Key(u), env, r)
      || (w == u && CurrentUpTo(PathOf(g, Key(u)), |PathOf(g, Key(u))|, env, r))
  {
    hide LoopKey, LoopOf, World, Nodes, PathOf, WellFormedTables, CurrentUpTo, Executed, InPlace;
    PlacedAreLoops(g);
    NextIn(g, t, u, Key(w), env, r);
    if LoopOf(u) in PathOf(g, Key(w)) { LeafInLeaf(g, t, u, w); }
  }

  lemma EarlierDiffers(g: Tables, t: Tree, u: Tree, env: string -> int, s: State)
    requires InPlace(g, u) && !CurrentUpTo(PathOf(g, Key(u)), |PathOf(g, Key(u))|, env, s)
    ensures Differ(PathOf(g, Key(u)), env, Current(s))
  {
    hide LoopKey, LoopOf, PathOf, IterVar;
  }

  // ----- triples -----

  ghost function Outset(g: Tables, t: Tree, n: Tree, m: Model): State -> bool
    requires WellFormedTables(g)
  {
    (s: State) => Ideal(g, t, Key(n), s[n.v := IntV(LoV(g, n.v, s, m))], m)
  }

  ghost function Finish(g: Tables, t: Tree, n: Tree, m: Model): State -> bool
    requires WellFormedTables(g)
  {
    (s: State) => Ideal(g, t, Key(n), s[n.v := IntV(HiV(g, n.v, s, m))], m)
  }

  ghost function Head(g: Tables, t: Tree, n: Tree, m: Model): State -> bool
    requires WellFormedTables(g)
  {
    (s: State) => Ideal(g, t, Key(n), s, m)
  }

  /** Behind what stands in a loop, in front of its increment. */
  ghost function Tail(g: Tables, t: Tree, n: Tree, m: Model): State -> bool
    requires WellFormedTables(g)
  {
    (s: State) => Lookup(s, n.v).IntV? && Ideal(g, t, Key(n), s[n.v := IntV(Now(n.v, s) + 1)], m)
  }

  ghost function Testing(g: Tables, t: Tree, n: Tree, m: Model): State -> bool
    requires WellFormedTables(g)
  {
    (s: State) => Ideal(g, t, Key(n), s, m) && Holds(Test(n), s, m)
  }

  lemma ClosedFor(g: Tables, t: Tree, c: Stmt, m: Model)
    requires World(g, t) && WellFormedTables(g) && Assigned(c) <= Changing(t)
    ensures Closed(AdmissibleIn(g, t, m), Assigned(c))
  {
    hide LoopKey, World, WellFormedTables, AdmissibleIn, Changing;
    AdmissibleInClosed(g, t, m);
  }

  lemma ChangingNest(t: Tree, n: Tree)
    requires n in Nodes(t)
    ensures Changing(n) <= Changing(t)
  {
    hide Nodes;
    NodesNest(t, n);
  }

  lemma TestReads(g: Tables, t: Tree, n: Tree, s: State, m: Model)
    requires World(g, t) && WellFormedTables(g) && n in Nodes(t) && AssumedIn(g, t, s, m) && Standard(m)
    requires Lookup(s, n.v).IntV?
    ensures Holds(Test(n), s, m) <==> Now(n.v, s) < HiV(g, n.v, s, m)
  {
    hide LoopKey, LoopOf, World, WellFormedTables, Nodes, Eval, Standard;
    WorldBounds(g, t, n);
    EvalVar(n.v, s, m);
    BoundsAreInts(g, t, n, s, m);
    LessMeans(Var(n.v), n.hi, Now(n.v, s), HiV(g, n.v, s, m), s, m);
  }

  lemma BoundsAreInts(g: Tables, t: Tree, n: Tree, s: State, m: Model)
    requires WellFormedTables(g) && n in Nodes(t) && AssumedIn(g, t, s, m)
    ensures Eval(n.lo, s, m).IntV? && Eval(n.hi, s, m).IntV? && IntOf(Eval(n.lo, s, m)) < IntOf(Eval(n.hi, s, m))
  {
    hide LoopKey, LoopOf, WellFormedTables, Nodes, Eval;
  }

  lemma {:induction false} LoopTriple(g: Tables, t: Tree, n: Tree, m: Model)
    requires World(g, t) && WellFormedTables(g) && n in Nodes(t) && Standard(m)
    ensures Triple(Head(g, t, n, m), LoopOf(n), Finish(g, t, n, m), Inv(g, t, m), AdmissibleIn(g, t, m), m)
    ensures Triple(Outset(g, t, n, m), Whole(n), Finish(g, t, n, m), Inv(g, t, m), AdmissibleIn(g, t, m), m)
    decreases n, 1
  {
    hide LoopKey, LoopOf, World, WellFormedTables, Nodes, Triple, Pre, Conds, Holds, Changing, Inner;
    InnerTriple(g, t, n, m);
    IncrTriple(g, t, n, m);
    ChangingNest(t, n);
    TreeAssigns(n);
    InnerAssigns(n);
    ClosedFor(g, t, Inner(n), m);
    ClosedFor(g, t, Start(n), m);
    var adm, inv := AdmissibleIn(g, t, m), Inv(g, t, m);
    SeqRule(Testing(g, t, n, m), Inner(n), Tail(g, t, n, m), Incr(n.v), Head(g, t, n, m), inv, adm, m);
    LoopFromBody(g, t, n, m);
    StartTriple(g, t, n, m);
    SeqRule(Outset(g, t, n, m), Start(n), Head(g, t, n, m), LoopOf(n), Finish(g, t, n, m), inv, adm, m);
  }

  lemma IncrTriple(g: Tables, t: Tree, n: Tree, m: Model)
    requires World(g, t) && WellFormedTables(g) && n in Nodes(t) && Standard(m)
    ensures Triple(Tail(g, t, n, m), Incr(n.v), Head(g, t, n, m), Inv(g, t, m), AdmissibleIn(g, t, m), m)
  {
    hide LoopKey, LoopOf, World, WellFormedTables, Nodes, Ideal, Standard, Eval;
    forall s | Lookup(s, n.v).IntV?
      ensures Eval(Incr(n.v).rval, s, m) == IntV(Now(n.v, s) + 1)
    {
      IncrValue(n.v, s, m);
    }
  }

  lemma IncrValue(v: string, s: State, m: Model)
    requires Standard(m) && Lookup(s, v).IntV?
    ensures Eval(Incr(v).rval, s, m) == IntV(Now(v, s) + 1)
  {
    EvalVar(v, s, m);
    assert Eval(Incr(v).rval, s, m) == m.bin(Add, Eval(Var(v), s, m), IntV(1));
  }

  lemma StartTriple(g: Tables, t: Tree, n: Tree, m: Model)
    requires World(g, t) && WellFormedTables(g) && n in Nodes(t)
    ensures Triple(Outset(g, t, n, m), Start(n), Head(g, t, n, m), Inv(g, t, m), AdmissibleIn(g, t, m), m)
  {
    hide LoopKey, LoopOf, World, WellFormedTables, Nodes, Ideal, Eval, AssumedIn;
    forall s | AssumedIn(g, t, s, m) ensures Eval(n.lo, s, m) == IntV(LoV(g, n.v, s, m)) {
      BoundsAreInts(g, t, n, s, m);
      WorldBounds(g, t, n);
    }
  }

  /** The loop, from its body. */
  lemma LoopFromBody(g: Tables, t: Tree, n: Tree, m: Model)
    requires World(g, t) && WellFormedTables(g) && n in Nodes(t) && Standard(m)
    requires Triple(Testing(g, t, n, m), Seq(Inner(n), Incr(n.v)), Head(g, t, n, m), Inv(g, t, m),
                    AdmissibleIn(g, t, m), m)
    ensures Triple(Head(g, t, n, m), LoopOf(n), Finish(g, t, n, m), Inv(g, t, m), AdmissibleIn(g, t, m), m)
  {
    hide LoopKey, World, WellFormedTables, Nodes, Ideal, Eval, AssumedIn, Inner, Triple, Holds, Changing;
    var adm, inv := AdmissibleIn(g, t, m), Inv(g, t, m);
    var c := LoopOf(n);
    forall s | AssumedIn(g, t, s, m) && Ideal(g, t, Key(n), s, m) && !Holds(Test(n), s, m)
      ensures Finish(g, t, n, m)(s)
    {
      ExitState(g, t, n, s, m);
    }
    ChangingNest(t, n);
    TreeAssigns(n);
    InnerAssigns(n);
    assert Assigned(c.body) == Assigned(c);
    ClosedFor(g, t, c.body, m);
    ClosedFor(g, t, c, m);
    Consequence(s => inv(LoopKey(c), s) && Holds(c.test, s, m), Testing(g, t, n, m), c.body, r => inv(LoopKey(c), r),
                Head(g, t, n, m), inv, adm, m);
    WhileRule(c, Finish(g, t, n, m), inv, adm, m);
    Consequence(Head(g, t, n, m), s => inv(LoopKey(c), s), c, Finish(g, t, n, m), Finish(g, t, n, m), inv, adm, m);
  }

  lemma ExitState(g: Tables, t: Tree, n: Tree, s: State, m: Model)
    requires World(g, t) && WellFormedTables(g) && n in Nodes(t) && AssumedIn(g, t, s, m) && Standard(m)
    requires Ideal(g, t, Key(n), s, m) && !Holds(Test(n), s, m)
    ensures s[n.v := IntV(HiV(g, n.v, s, m))] == s
  {
    hide LoopKey, LoopOf, World, WellFormedTables, Nodes, Eval, AssumedIn, Holds, HiV, LoV, ExecutedDone, InsideAll;
    WorldPlaces(g, t, n);
    TestReads(g, t, n, s, m);
  }

  /** What stands in a loop leads to its next iteration. */
  lemma {:induction false} InnerTriple(g: Tables, t: Tree, n: Tree, m: Model)
    requires World(g, t) && WellFormedTables(g) && n in Nodes(t) && Standard(m)
    ensures Triple(Testing(g, t, n, m), Inner(n), Tail(g, t, n, m), Inv(g, t, m), AdmissibleIn(g, t, m), m)
    decreases n, 0
  {
    hide LoopKey, LoopOf, World, WellFormedTables, Nodes, Triple, Ideal, Holds, AssumedIn, Changing, KidsStmt, Eval,
      Finish, Outset;
    if n.Leaf? {
      LeafTriple(g, t, n, m);
    } else {
      NodeHasKids(g, t, n);
      var last := n.kids[|n.kids| - 1];
      KidsTriple(g, t, n, |n.kids|, m);
      ChangingNest(t, n);
      TreeAssigns(n);
      InnerAssigns(n);
      ClosedFor(g, t, Inner(n), m);
      EnterEntails(g, t, n, m);
      LeaveEntails(g, t, n, m);
      Consequence(Testing(g, t, n, m), Outset(g, t, n.kids[0], m), Inner(n), Tail(g, t, n, m), Finish(g, t, last, m),
                  Inv(g, t, m), AdmissibleIn(g, t, m), m);
    }
  }

  lemma NodeHasKids(g: Tables, t: Tree, n: Tree)
    requires World(g, t) && n in Nodes(t) && n.Node?
    ensures n.kids != []
  {
    hide LoopKey, LoopOf, Changing, Steady, TablesOf, Setup, VarsApart, DistinctLoops, Nodes;
    ScopedKids(t, {}, Changing(t), n);
  }

  lemma {:induction false} ScopedKids(t: Tree, outer: set<string>, changing: set<string>, n: Tree)
    requires WellScoped(t, outer, changing) && n in Nodes(t) && n.Node?
    ensures n.kids != []
    decreases t
  {
    hide Steady;
    if n != t {
      var i :| 0 <= i < |t.kids| && n in Nodes(t.kids[i]);
      ScopedKids(t.kids[i], outer + {t.v}, changing, n);
    }
  }

  lemma LeafTriple(g: Tables, t: Tree, n: Tree, m: Model)
    requires World(g, t) && WellFormedTables(g) && n in Nodes(t) && Standard(m) && n.Leaf?
    ensures Triple(Testing(g, t, n, m), Inner(n), Tail(g, t, n, m), Inv(g, t, m), AdmissibleIn(g, t, m), m)
  {
    hide LoopKey, LoopOf, World, WellFormedTables, Nodes, AssumedIn, Eval, Testing, Tail;
    forall s | AssumedIn(g, t, s, m) && Testing(g, t, n, m)(s)
      ensures Tail(g, t, n, m)(Written(n, s, m))
    {
      LeafStep(g, t, n, s, m);
    }
  }

  lemma LeafStep(g: Tables, t: Tree, n: Tree, s: State, m: Model)
    requires World(g, t) && WellFormedTables(g) && n in Nodes(t) && Standard(m) && n.Leaf?
    requires AssumedIn(g, t, s, m) && Testing(g, t, n, m)(s)
    ensures Tail(g, t, n, m)(Written(n, s, m))
  {
    hide LoopKey, LoopOf, World, WellFormedTables, Nodes, Ideal, Holds, AssumedIn, Eval, HiV, Written;
    HeadInt(g, t, n, s, m);
    TestReads(g, t, n, s, m);
    Step(g, t, n, s, m);
  }

  lemma HeadInt(g: Tables, t: Tree, n: Tree, s: State, m: Model)
    requires World(g, t) && WellFormedTables(g) && n in Nodes(t) && Ideal(g, t, Key(n), s, m)
    ensures Lookup(s, n.v).IntV?
  {
    hide LoopKey, LoopOf, World, WellFormedTables, Nodes, HiV, LoV, ExecutedDone, InsideAll;
    WorldPlaces(g, t, n);
  }

  lemma EnterEntails(g: Tables, t: Tree, n: Tree, m: Model)
    requires World(g, t) && WellFormedTables(g) && n in Nodes(t) && Standard(m) && n.Node? && n.kids != []
    ensures Entails(Testing(g, t, n, m), Outset(g, t, n.kids[0], m), AdmissibleIn(g, t, m))
  {
    hide LoopKey, LoopOf, World, WellFormedTables, Nodes, Ideal, Holds, AssumedIn, Eval, HiV, LoV;
    forall s | AssumedIn(g, t, s, m) && Testing(g, t, n, m)(s) ensures Outset(g, t, n.kids[0], m)(s) {
      HeadInt(g, t, n, s, m);
      TestReads(g, t, n, s, m);
      Enter(g, t, n, s, m);
    }
  }

  lemma LeaveEntails(g: Tables, t: Tree, n: Tree, m: Model)
    requires World(g, t) && WellFormedTables(g) && n in Nodes(t) && n.Node? && n.kids != []
    ensures Entails(Finish(g, t, n.kids[|n.kids| - 1], m), Tail(g, t, n, m), AdmissibleIn(g, t, m))
  {
    hide LoopKey, LoopOf, World, WellFormedTables, Nodes, Ideal, AssumedIn, HiV;
    forall s | AssumedIn(g, t, s, m) && Finish(g, t, n.kids[|n.kids| - 1], m)(s) ensures Tail(g, t, n, m)(s) {
      Leave(g, t, n, s, m);
    }
  }

  lemma BetweenEntails(g: Tables, t: Tree, n: Tree, j: nat, m: Model)
    requires World(g, t) && WellFormedTables(g) && n in Nodes(t) && n.Node? && 0 < j < |n.kids|
    ensures Entails(Finish(g, t, n.kids[j - 1], m), Outset(g, t, n.kids[j], m), AdmissibleIn(g, t, m))
  {
    hide LoopKey, LoopOf, World, WellFormedTables, Nodes, Ideal, AssumedIn, HiV, LoV;
    forall s | AssumedIn(g, t, s, m) && Finish(g, t, n.kids[j - 1], m)(s) ensures Outset(g, t, n.kids[j], m)(s) {
      Between(g, t, n, j, s, m);
    }
  }

  /** The first `j` kids, from the beginning of the first to the end of the last. */
  lemma {:induction false} KidsTriple(g: Tables, t: Tree, n: Tree, j: nat, m: Model)
    requires World(g, t) && WellFormedTables(g) && n in Nodes(t) && Standard(m) && n.Node? && 0 < j <= |n.kids|
    ensures Triple(Outset(g, t, n.kids[0], m), KidsStmt(n, j), Finish(g, t, n.kids[j - 1], m), Inv(g, t, m),
                   AdmissibleIn(g, t, m), m)
    decreases n, -1, j
  {
    hide LoopKey, LoopOf, World, WellFormedTables, Nodes, Triple, Ideal, Holds, AssumedIn, Changing, Eval, Finish,
      Outset, Head;
    var kid := n.kids[j - 1];
    KidChanges(t, n, j - 1);
    LoopTriple(g, t, kid, m);
    if j > 1 {
      KidsTriple(g, t, n, j - 1, m);
      StartTriple(g, t, kid, m);
      BetweenEntails(g, t, n, j - 1, m);
      KidsClosed(g, t, n, j, m);
      var adm, inv := AdmissibleIn(g, t, m), Inv(g, t, m);
      var mid, pre := Finish(g, t, n.kids[j - 2], m), Outset(g, t, kid, m);
      Consequence(mid, pre, Start(kid), Head(g, t, kid, m), Head(g, t, kid, m), inv, adm, m);
      SeqRule(Outset(g, t, n.kids[0], m), KidsStmt(n, j - 1), mid, Start(kid), Head(g, t, kid, m), inv, adm, m);
      SeqRule(Outset(g, t, n.kids[0], m), Seq(KidsStmt(n, j - 1), Start(kid)), Head(g, t, kid, m), LoopOf(kid),
              Finish(g, t, kid, m), inv, adm, m);
    }
  }

  lemma KidsClosed(g: Tables, t: Tree, n: Tree, j: nat, m: Model)
    requires World(g, t) && WellFormedTables(g) && n in Nodes(t) && n.Node? && 1 < j <= |n.kids|
    ensures Closed(AdmissibleIn(g, t, m), Assigned(KidsStmt(n, j - 1)))
    ensures Closed(AdmissibleIn(g, t, m), Assigned(Start(n.kids[j - 1])))
    ensures Closed(AdmissibleIn(g, t, m), Assigned(Seq(KidsStmt(n, j - 1), Start(n.kids[j - 1]))))
  {
    hide LoopKey, LoopOf, World, WellFormedTables, Nodes, Changing, KidsStmt, AdmissibleIn;
    forall i | 0 <= i < |n.kids|
      ensures Assigned(Whole(n.kids[i])) == Changing(n.kids[i]) && Changing(n.kids[i]) <= Changing(t)
    {
      TreeAssigns(n.kids[i]);
      KidChanges(t, n, i);
      ChangingNest(t, n.kids[i]);
    }
    KidsAssign(n, j - 1);
    KidChanges(t, n, j - 1);
    ClosedFor(g, t, KidsStmt(n, j - 1), m);
    ClosedFor(g, t, Start(n.kids[j - 1]), m);
    ClosedFor(g, t, Seq(KidsStmt(n, j - 1), Start(n.kids[j - 1])), m);
  }

  // ----- the whole program -----

  /** The postcondition: every iteration of every leaf is done. */
  ghost predicate AllDoneIn(g: Tables, t: Tree, s: State, m: Model)
    requires WellFormedTables(g)
  {
    forall u, env | u in Nodes(t) && u.Leaf? && InPlace(g, u) && IsIteration(g, Key(u), env, s, m) ::
      DoneAt(g, u, env, s, m)
  }

  lemma RootVar(g: Tables, t: Tree, u: Tree)
    requires World(g, t) && u in Nodes(t)
    ensures InPlace(g, u) && InPlace(g, t) && LoopOf(t) in PathOf(g, Key(u)) && PathOf(g, Key(u))[0] == LoopOf(t)
    ensures IterVar(g.loops[Key(t)]) == t.v && g.containing[Key(t)] == []
  {
    hide LoopKey, LoopOf, World, Nodes;
    RootIn(t);
    WorldPlaces(g, t, u);
    WorldPlaces(g, t, t);
  }

  /** An iteration of a leaf respects the bounds of the outermost loop. */
  lemma RootRange(g: Tables, t: Tree, u: Tree, env: string -> int, s: State, m: Model)
    requires World(g, t) && WellFormedTables(g) && u in Nodes(t) && InPlace(g, u) && IsIteration(g, Key(u), env, s, m)
    ensures LoV(g, t.v, s, m) <= env(t.v) < HiV(g, t.v, s, m)
  {
    hide LoopKey, LoopOf, World, WellFormedTables, Nodes, Eval;
    RootIn(t);
    RootVar(g, t, u);
    WorldBounds(g, t, t);
  }

  /** In front of the outermost loop: its earlier iterations. */
  lemma RootExecuted(g: Tables, t: Tree, u: Tree, env: string -> int, s: State, w: int)
    requires World(g, t) && WellFormedTables(g) && u in Nodes(t) && InPlace(g, u) && InPlace(g, t)
    ensures Executed(g, Key(u), Key(t), env, s[t.v := IntV(w)]) <==> env(t.v) < w
  {
    hide LoopKey, LoopOf, World, WellFormedTables, Nodes, Executed, PathOf;
    WorldTables(g, t);
    RootVar(g, t, u);
    ExecutedAtRoot(g, TreeVars(t), Key(u), Key(t), env, s[t.v := IntV(w)]);
  }

  lemma RootIn(t: Tree)
    ensures t in Nodes(t) && t.v in TreeVars(t)
  {
  }

  /** Nothing has been executed when the program starts. */
  lemma AtTheStart(g: Tables, t: Tree, s: State, m: Model)
    requires World(g, t) && WellFormedTables(g) && AssumedIn(g, t, s, m)
    ensures Outset(g, t, t, m)(s)
  {
    hide LoopKey, LoopOf, World, WellFormedTables, Nodes, Eval, AssumedIn, LoV, HiV, IsIteration, DoneAt, Executed,
      InPlace, PathOf, TreeVars, ExecutedDone, BoundsAt;
    RootIn(t);
    var s' := s[t.v := IntV(LoV(g, t.v, s, m))];
    RootBounds(g, t, s, m);
    PlacedAreLoops(g);
    forall u, env | u in Nodes(t) && u.Leaf? && InPlace(g, u) && IsIteration(g, Key(u), env, s', m)
      ensures !Executed(g, Key(u), Key(t), env, s')
    {
      DoneKept(g, t, u, env, s, t.v, IntV(LoV(g, t.v, s, m)), m);
      RootRange(g, t, u, env, s, m);
      RootExecuted(g, t, u, env, s, LoV(g, t.v, s, m));
    }
    ExecutedDoneIntro(g, t, Key(t), s', m);
  }

  lemma RootBounds(g: Tables, t: Tree, s: State, m: Model)
    requires World(g, t) && WellFormedTables(g) && AssumedIn(g, t, s, m)
    ensures InPlace(g, t) && BoundsAt(g, Key(t), s[t.v := IntV(LoV(g, t.v, s, m))], m)
  {
    hide LoopKey, LoopOf, World, WellFormedTables, Eval, AssumedIn;
    RootIn(t);
    WorldPlaces(g, t, t);
    WorldBounds(g, t, t);
    BoundsAreInts(g, t, t, s, m);
    InVars(t, t);
    TableBoundsKept(g, t, t.v, s, t.v, IntV(LoV(g, t.v, s, m)), m);
  }

  /** Everything has been executed when it ends. */
  lemma AtTheEnd(g: Tables, t: Tree, s: State, m: Model)
    requires World(g, t) && WellFormedTables(g) && Finish(g, t, t, m)(s)
    ensures AllDoneIn(g, t, s, m)
  {
    hide LoopKey, LoopOf, World, WellFormedTables, Nodes, Eval, LoV, HiV, IsIteration, DoneAt, Executed, InPlace,
      PathOf, TreeVars, BoundsAt;
    RootIn(t);
    RootVar(g, t, t);
    PlacedAreLoops(g);
    var hi := HiV(g, t.v, s, m);
    var s' := s[t.v := IntV(hi)];
    forall u, env | u in Nodes(t) && u.Leaf? && InPlace(g, u) && IsIteration(g, Key(u), env, s, m)
      ensures DoneAt(g, u, env, s, m)
    {
      DoneKept(g, t, u, env, s, t.v, IntV(hi), m);
      RootRange(g, t, u, env, s, m);
      RootExecuted(g, t, u, env, s, hi);
    }
  }

  /** For loop trees of every shape, "all executed iterations are done" satisfies all conditions. */
  lemma TreeConditions(g: Tables, t: Tree, m: Model)
    requires World(g, t) && WellFormedTables(g) && Standard(m)
    ensures Triple(s => true, Whole(t), s => AllDoneIn(g, t, s, m), Inv(g, t, m), AdmissibleIn(g, t, m), m)
  {
    hide LoopKey, LoopOf, World, WellFormedTables, Nodes, Triple, AssumedIn, Changing, Outset, Finish, AllDoneIn;
    var adm := AdmissibleIn(g, t, m);
    RootIn(t);
    LoopTriple(g, t, t, m);
    TreeAssigns(t);
    ClosedFor(g, t, Whole(t), m);
    forall s | AssumedIn(g, t, s, m) ensures Outset(g, t, t, m)(s) { AtTheStart(g, t, s, m); }
    forall s | Finish(g, t, t, m)(s) ensures AllDoneIn(g, t, s, m) { AtTheEnd(g, t, s, m); }
    Consequence(s => true, Outset(g, t, t, m), Whole(t), s => AllDoneIn(g, t, s, m), Finish(g, t, t, m),
                Inv(g, t, m), adm, m);
  }

  /** From a state that meets the assumptions the program ends with everything done. */
  lemma TreeEnds(g: Tables, t: Tree, s: State, m: Model) returns (n: nat)
    requires World(g, t) && WellFormedTables(g) && Standard(m)
    ensures AssumedIn(g, t, s, m) ==>
      && Run(Whole(t), s, n, m).Some?
      && AssumedIn(g, t, Run(Whole(t), s, n, m).value, m) && AllDoneIn(g, t, Run(Whole(t), s, n, m).value, m)
  {
    hide LoopKey, LoopOf, WellFormedTables, Nodes, AssumedIn, Changing, AllDoneIn, WellScoped, VarsApart, DistinctLoops,
      Run, Standard, Counting, TablesOf, Setup;
    PartOfWhole(t);
    TreeShape(t, {}, Changing(t));
    n := CountingTerminates(Whole(t), s, m);
    if AssumedIn(g, t, s, m) {
      TreeConditions(g, t, m);
      TreeAssigns(t);
      ClosedFor(g, t, Whole(t), m);
      RunStaysAdmissible(Whole(t), AdmissibleIn(g, t, m), m, s, n);
      TripleSound(Whole(t), r => AllDoneIn(g, t, r, m), Inv(g, t, m), AdmissibleIn(g, t, m), m, s, n);
    }
  }

  /** Every loop tree, of any shape, run from any state that meets the assumptions, ends with every
      iteration of every leaf done. */
  lemma TreeComputes(t: Tree, s: State, m: Model) returns (g: Tables, n: nat)
    requires WellFormedTree(t) && Standard(m)
    ensures World(g, t) && WellFormedTables(g)
    ensures AssumedIn(g, t, s, m) ==> Run(Whole(t), s, n, m).Some? && AllDoneIn(g, t, Run(Whole(t), s, n, m).value, m)
  {
    hide LoopKey, LoopOf, World, WellFormedTree, WellFormedTables, Nodes, AssumedIn, AllDoneIn, Run, Standard;
    g := WorldExists(t);
    WorldTables(g, t);
    n := TreeEnds(g, t, s, m);
  }
}
