/** When a variable without a range rules a clause out, the shape in which nothing is missed is
    needed: in every other loop tree some generated condition fails. */
module TreeNecessity {
  import opened StencilIr
  import opened Interpret
  import opened Verify
  import opened VerifyTheorems
  import opened Termination
  import opened Invariant
  import opened SiblingTables
  import opened SiblingCoverage
  import opened LoopOrder
  import opened NestMeaning
  import opened Hoare
  import opened LoopTrees
  import opened TreeTables
  import opened TreeMeaning
  import opened TreeVcs
  import opened TreeRuns
  import opened TreeInvariants

  // ----- a leaf inside a loop that is not the last of its block -----

  predicate HaveKids(t: Tree) { forall n | n in Nodes(t) && n.Node? :: n.kids != [] }

  lemma WorldHasKids(g: Tables, t: Tree)
    requires World(g, t)
    ensures HaveKids(t)
  {
    hide LoopKey, LoopOf, Nodes, World;
    forall n | n in Nodes(t) && n.Node? ensures n.kids != [] { NodeHasKids(g, t, n); }
  }

  lemma KidHasKids(t: Tree, i: nat)
    requires HaveKids(t) && t.Node? && i < |t.kids|
    ensures HaveKids(t.kids[i])
  {
    hide Nodes;
    KidIn(t, i);
  }

  lemma {:induction false} SomeLeaf(t: Tree) returns (u: Tree)
    requires HaveKids(t)
    ensures u in Nodes(t) && u.Leaf?
  {
    hide Nodes, HaveKids;
    RootIn(t);
    if t.Leaf? {
      u := t;
    } else {
      HasKid(t);
      KidHasKids(t, 0);
      u := SomeLeaf(t.kids[0]);
      KidIn(t, 0);
    }
  }

  lemma HasKid(t: Tree)
    requires HaveKids(t) && t.Node?
    ensures t.kids != []
  {
  }

  /** `u` is a leaf inside kid `i` of node `n`, which is no leaf and not the last kid. */
  predicate InFrontOf(t: Tree, n: Tree, i: nat, u: Tree) {
    && n in Nodes(t) && n.Node? && i < |n.kids| - 1 && n.kids[i].Node? && u in Nodes(n.kids[i]) && u.Leaf?
  }

  lemma {:induction false} NotLeavesFirst(t: Tree) returns (n: Tree, i: nat, u: Tree)
    requires !LeavesFirst(t) && HaveKids(t)
    ensures InFrontOf(t, n, i, u)
  {
    hide Nodes, HaveKids;
    RootIn(t);
    if j :| 0 <= j < |t.kids| - 1 && !t.kids[j].Leaf? {
      KidHasKids(t, j);
      u := SomeLeaf(t.kids[j]);
      n, i := t, j;
    } else {
      var j :| 0 <= j < |t.kids| && !LeavesFirst(t.kids[j]);
      KidHasKids(t, j);
      n, i, u := NotLeavesFirst(t.kids[j]);
      KidIn(t, j);
    }
  }

  // ----- its place -----

  function Last(n: Tree): Tree
    requires n.Node? && n.kids != []
  {
    n.kids[|n.kids| - 1]
  }

  lemma Places(g: Tables, t: Tree, n: Tree, i: nat, u: Tree)
    requires World(g, t) && WellFormedTables(g) && InFrontOf(t, n, i, u)
    ensures u in Nodes(t) && InPlace(g, n) && InPlace(g, u) && InPlace(g, Last(n)) && Last(n) in Nodes(t)
    ensures PathOf(g, Key(Last(n))) == PathOf(g, Key(n)) + [LoopOf(Last(n))]
    ensures LoopOf(n) in PathOf(g, Key(u)) && Meet(g, Key(u), Key(Last(n))) == |PathOf(g, Key(n))|
    ensures !InView(g, Key(u), Key(Last(n)), false)
  {
    hide LoopKey, LoopOf, World, Nodes, WellFormedTables, PathOf, Meet, Key, InFrontOf;
    InFrontKid(t, n, i, u);
    KidChanges(t, n, i);
    KidChanges(t, n, |n.kids| - 1);
    NodesNest(t, n.kids[i]);
    InsideKid(g, t, n, i, u);
    OwnEnd(g, n);
    OnPathOf(PathOf(g, Key(n)), PathOf(g, Key(u)));
    PathsOfKids(g, t, n, i);
    MeetAtNode(g, t, n, i, u);
  }

  lemma MeetAtNode(g: Tables, t: Tree, n: Tree, i: nat, u: Tree)
    requires n in Nodes(t) && n.Node? && i < |n.kids| - 1 && InPlace(g, n) && InPlace(g, n.kids[i]) && InPlace(g, u)
    requires InPlace(g, Last(n)) && PathOf(g, Key(n.kids[i])) <= PathOf(g, Key(u))
    requires WellFormedTables(g) && World(g, t)
    ensures Meet(g, Key(u), Key(Last(n))) == |PathOf(g, Key(n))|
  {
    hide LoopKey, LoopOf, World, Nodes, WellFormedTables, PathOf, Meet, Setup, TreeVars, InPlace, Last, Key;
    WorldTables(g, t);
    KidChanges(t, n, i);
    KidChanges(t, n, |n.kids| - 1);
    KidsOrdered(g, t, n, i, |n.kids| - 1);
    LastIs(n);
    AroundKids(g, t, n, i);
    LoopsDiffer(g, t, n.kids[i], Last(n));
    KeyInTables(g, n.kids[i]);
    KeyInTables(g, Last(n));
    KeyInTables(g, u);
    KidOnPath(g, n.kids[i], u);
    MeetOfSiblings(g, TreeVars(t), Key(u), Key(Last(n)), Key(n.kids[i]));
  }

  lemma AroundKids(g: Tables, t: Tree, n: Tree, i: nat)
    requires World(g, t) && n in Nodes(t) && n.Node? && i < |n.kids|
    ensures InPlace(g, n) && InPlace(g, n.kids[i]) && InPlace(g, Last(n))
    ensures g.containing[Key(n.kids[i])] == PathOf(g, Key(n)) == g.containing[Key(Last(n))]
  {
    hide LoopKey, LoopOf, World, Nodes;
    PathsOfKids(g, t, n, i);
    PathsOfKids(g, t, n, |n.kids| - 1);
  }

  lemma KidOnPath(g: Tables, kid: Tree, u: Tree)
    requires InPlace(g, kid) && InPlace(g, u) && PathOf(g, Key(kid)) <= PathOf(g, Key(u))
    ensures LoopOf(kid) in PathOf(g, Key(u))
  {
    hide LoopKey, LoopOf, PathOf;
    OwnEnd(g, kid);
    OnPathOf(PathOf(g, Key(kid)), PathOf(g, Key(u)));
  }

  /** A loop inside `i` meets a loop beside `i` where both part. */
  lemma MeetOfSiblings(g: Tables, loopvars: set<string>, x: string, here: string, i: string)
    requires Setup(g, loopvars) && x in g.loops && here in g.loops && i in g.loops
    requires i in g.containing && here in g.containing && g.containing[i] == g.containing[here]
    requires g.loops[i] != g.loops[here] && x in g.containing && g.loops[i] in PathOf(g, x)
    ensures WellFormedTables(g) && Meet(g, x, here) == |g.containing[here]|
  {
    hide LoopKey, WellFormedTables, IsNesting, Meet;
    MeetBeside(g, loopvars, x, here, i, |g.containing[here]|);
  }

  lemma LastIs(n: Tree)
    requires n.Node? && n.kids != []
    ensures Last(n) == n.kids[|n.kids| - 1]
  {
  }

  lemma KeyInTables(g: Tables, u: Tree)
    requires InPlace(g, u)
    ensures Key(u) in g.loops && Key(u) in g.containing && g.loops[Key(u)] == LoopOf(u)
  {
    hide LoopKey, LoopOf;
  }

  lemma InFrontKid(t: Tree, n: Tree, i: nat, u: Tree)
    requires InFrontOf(t, n, i, u)
    ensures n in Nodes(t) && n.Node? && i < |n.kids| - 1 && u in Nodes(n.kids[i]) && u.Leaf?
  {
    hide Nodes;
  }

  lemma OwnEnd(g: Tables, n: Tree)
    requires InPlace(g, n)
    ensures PathOf(g, Key(n)) != [] && PathOf(g, Key(n))[|PathOf(g, Key(n))| - 1] == LoopOf(n)
  {
    hide LoopKey, LoopOf;
  }

  lemma PathsOfKids(g: Tables, t: Tree, n: Tree, i: nat)
    requires World(g, t) && n in Nodes(t) && n.Node? && i < |n.kids|
    ensures InPlace(g, n) && InPlace(g, n.kids[i]) && InPlace(g, Last(n))
    ensures PathOf(g, Key(Last(n))) == PathOf(g, Key(n)) + [LoopOf(Last(n))]
    ensures PathOf(g, Key(n.kids[i])) == PathOf(g, Key(n)) + [LoopOf(n.kids[i])]
    ensures var p := PathOf(g, Key(Last(n)));
      && g.containing[Key(n.kids[i])] == PathOf(g, Key(n)) == p[..|PathOf(g, Key(n))|]
      && p[|PathOf(g, Key(n))|] == LoopOf(Last(n))
  {
    hide LoopKey, LoopOf, World, Nodes;
    WorldPlaces(g, t, n);
    PlaceKid(g, n, |n.kids| - 1);
    PlaceKid(g, n, i);
    var q := PathOf(g, Key(n.kids[i]));
    assert q[..|q| - 1] == PathOf(g, Key(n));
  }

  lemma OnPathOf(q: seq<Stmt>, p: seq<Stmt>)
    requires q <= p && q != []
    ensures q[|q| - 1] in p
  {
    assert p[|q| - 1] == q[|q| - 1];
  }

  lemma LoopsDiffer(g: Tables, t: Tree, u: Tree, w: Tree)
    requires World(g, t) && u in Nodes(t) && w in Nodes(t) && Key(u) != Key(w)
    ensures LoopOf(u) != LoopOf(w)
  {
    hide LoopOf, LoopKey, World, Nodes;
  }

  /** The path of the leaf goes on below the kid. */
  lemma InsideKid(g: Tables, t: Tree, n: Tree, i: nat, u: Tree)
    requires World(g, t) && WellFormedTables(g) && InFrontOf(t, n, i, u)
    ensures InPlace(g, n) && InPlace(g, n.kids[i]) && InPlace(g, u)
    ensures PathOf(g, Key(n)) <= PathOf(g, Key(n.kids[i])) <= PathOf(g, Key(u))
    ensures |PathOf(g, Key(u))| >= |PathOf(g, Key(n))| + 2
  {
    hide LoopKey, LoopOf, World, Nodes, WellFormedTables, PathOf;
    var kid := n.kids[i];
    WorldPlaces(g, t, n);
    PlaceKid(g, n, i);
    PlaceAll(g, kid, u);
    KidChanges(t, n, i);
    NodesNest(t, kid);
    var p, q := PathOf(g, Key(u)), PathOf(g, Key(kid));
    if |p| == |q| {
      assert p == q;
      assert p[|p| - 1] == LoopOf(u) && q[|q| - 1] == LoopOf(kid);
      SameLoopSameNode(g, t, u, kid);
    }
  }

  lemma SameLoopSameNode(g: Tables, t: Tree, u: Tree, w: Tree)
    requires World(g, t) && u in Nodes(t) && w in Nodes(t) && LoopOf(u) == LoopOf(w)
    ensures u == w
  {
    hide LoopOf, LoopKey, Nodes, TablesOf, Setup, WellScoped, DistinctLoops;
    VarsUnique(t, u, w);
  }

  // ----- a state in which only one iteration is not done -----

  /** Everything is done but the iterations of `u` that are `env`. */
  ghost predicate OnlyMissing(g: Tables, t: Tree, u: Tree, env: string -> int, s: State, m: Model)
    requires WellFormedTables(g) && u.Leaf? && InPlace(g, u)
  {
    && !DoneAt(g, u, env, s, m)
    && forall w, e | w in Nodes(t) && w.Leaf? && InPlace(g, w) && IsIteration(g, Key(w), e, s, m) ::
         DoneAt(g, w, e, s, m) || (w == u && !Differ(PathOf(g, Key(u)), e, env))
  }

  function Wrong(v: Value): Value { if v == IntV(0) then IntV(1) else IntV(0) }

  function Broken(g: Tables, u: Tree, env: string -> int, s: State, m: Model): State
    requires u.Leaf? && InPlace(g, u)
  {
    s[u.out := Store(Lookup(s, u.out), IndexAt(g, u, env, s, m), Wrong(ValueOf(g, u, env, s, m)))]
  }

  lemma BreakOne(g: Tables, t: Tree, u: Tree, env: string -> int, s: State, m: Model)
    requires World(g, t) && WellFormedTables(g) && u in Nodes(t) && u.Leaf? && InPlace(g, u)
    requires AssumedIn(g, t, s, m) && AllDoneIn(g, t, s, m) && IsIteration(g, Key(u), env, s, m)
    ensures AssumedIn(g, t, Broken(g, u, env, s, m), m) && OnlyMissing(g, t, u, env, Broken(g, u, env, s, m), m)
  {
    hide LoopKey, LoopOf, World, Eval, Nodes, PathOf, WellFormedTables, IsIteration, IndexAt, ValueOf, InPlace, DoneAt,
      AssumedIn, Differ;
    var r := Broken(g, u, env, s, m);
    PlacedAreLoops(g);
    OutChanges(t, u);
    AssumedKept(g, t, s, u.out, r[u.out], m);
    BrokenIsNot(g, t, u, env, s, m);
    forall w, e | w in Nodes(t) && w.Leaf? && InPlace(g, w) && IsIteration(g, Key(w), e, r, m)
      ensures DoneAt(g, w, e, r, m) || (w == u && !Differ(PathOf(g, Key(u)), e, env))
    {
      IterationKept(g, t, Key(w), e, s, u.out, r[u.out], m);
      OthersStay(g, t, u, env, w, e, s, m);
    }
  }

  lemma BrokenIsNot(g: Tables, t: Tree, u: Tree, env: string -> int, s: State, m: Model)
    requires World(g, t) && WellFormedTables(g) && u in Nodes(t) && u.Leaf? && InPlace(g, u)
    requires AssumedIn(g, t, s, m) && IsIteration(g, Key(u), env, s, m)
    ensures !DoneAt(g, u, env, Broken(g, u, env, s, m), m)
  {
    hide LoopKey, LoopOf, World, Eval, Nodes, PathOf, WellFormedTables, IsIteration, IndexAt, ValueOf, InPlace,
      AssumedIn;
    OutChanges(t, u);
    IndexIsInt(g, t, u, env, s, m);
    LeafKept(g, t, u, env, s, u.out, Broken(g, u, env, s, m)[u.out], m);
  }

  lemma OthersStay(g: Tables, t: Tree, u: Tree, env: string -> int, w: Tree, e: string -> int, s: State, m: Model)
    requires World(g, t) && WellFormedTables(g) && u in Nodes(t) && u.Leaf? && InPlace(g, u)
    requires w in Nodes(t) && w.Leaf? && InPlace(g, w) && AssumedIn(g, t, s, m) && AllDoneIn(g, t, s, m)
    requires IsIteration(g, Key(u), env, s, m) && IsIteration(g, Key(w), e, s, m)
    ensures DoneAt(g, w, e, Broken(g, u, env, s, m), m) || (w == u && !Differ(PathOf(g, Key(u)), e, env))
  {
    hide LoopKey, LoopOf, World, Eval, Nodes, PathOf, WellFormedTables, IsIteration, IndexAt, ValueOf, InPlace,
      AssumedIn, Differ;
    PlacedAreLoops(g);
    OutChanges(t, u);
    LeafKept(g, t, w, e, s, u.out, Broken(g, u, env, s, m)[u.out], m);
    if w != u {
      OutsApart(g, t, u, w);
    } else if Differ(PathOf(g, Key(u)), e, env) {
      IndexIsInt(g, t, u, env, s, m);
      IndexIsInt(g, t, u, e, s, m);
      IndicesDiffer(g, t, u, e, env, s, m);
    }
  }

  lemma SetVar(g: Tables, t: Tree, u: Tree, env: string -> int, s: State, x: string, w: Value, m: Model)
    requires World(g, t) && WellFormedTables(g) && u in Nodes(t) && u.Leaf? && InPlace(g, u) && x in TreeVars(t)
    requires AssumedIn(g, t, s, m) && OnlyMissing(g, t, u, env, s, m)
    ensures AssumedIn(g, t, s[x := w], m) && OnlyMissing(g, t, u, env, s[x := w], m)
    ensures forall v :: LoV(g, v, s[x := w], m) == LoV(g, v, s, m) && HiV(g, v, s[x := w], m) == HiV(g, v, s, m)
  {
    hide LoopKey, LoopOf, World, Nodes, PathOf, WellFormedTables, IsIteration, InPlace, DoneAt, AssumedIn, Differ,
      TreeVars, LoV, HiV;
    PlacedAreLoops(g);
    assert x in Changing(t);
    AssumedKept(g, t, s, x, w, m);
    AssignAlike(g, t, s, x, w, m);
    forall v ensures LoV(g, v, s[x := w], m) == LoV(g, v, s, m) && HiV(g, v, s[x := w], m) == HiV(g, v, s, m) {
      TableBoundsKept(g, t, v, s, x, w, m);
    }
  }

  /** The loops of a path at their first iteration. */
  function AtLows(g: Tables, p: seq<Stmt>, s: State, m: Model): State {
    if p == [] then s
    else
      var v := IterVar(p[|p| - 1]);
      AtLows(g, p[..|p| - 1], s, m)[v := IntV(LoV(g, v, s, m))]
  }

  ghost predicate LoopsOf(t: Tree, p: seq<Stmt>) { forall b | 0 <= b < |p| :: IterVar(p[b]) in TreeVars(t) }

  ghost predicate AreLow(g: Tables, p: seq<Stmt>, s: State, r: State, m: Model) {
    forall b | 0 <= b < |p| :: Lookup(r, IterVar(p[b])) == IntV(LoV(g, IterVar(p[b]), s, m))
  }

  lemma {:induction false} LowsKeep(g: Tables, t: Tree, u: Tree, env: string -> int, p: seq<Stmt>, s: State, m: Model)
    requires World(g, t) && WellFormedTables(g) && u in Nodes(t) && u.Leaf? && InPlace(g, u) && LoopsOf(t, p)
    requires AssumedIn(g, t, s, m) && OnlyMissing(g, t, u, env, s, m)
    ensures var r := AtLows(g, p, s, m);
      && AssumedIn(g, t, r, m) && OnlyMissing(g, t, u, env, r, m) && AreLow(g, p, s, r, m)
      && forall v :: LoV(g, v, r, m) == LoV(g, v, s, m) && HiV(g, v, r, m) == HiV(g, v, s, m)
  {
    hide LoopKey, LoopOf, World, Nodes, WellFormedTables, InPlace, OnlyMissing, AssumedIn, TreeVars, LoV, HiV, IterVar;
    if p != [] {
      var front, v := p[..|p| - 1], IterVar(p[|p| - 1]);
      assert forall b | 0 <= b < |front| :: front[b] == p[b];
      LowsKeep(g, t, u, env, front, s, m);
      SetVar(g, t, u, env, AtLows(g, front, s, m), v, IntV(LoV(g, v, s, m)), m);
      LastLow(g, p, s, AtLows(g, front, s, m), m);
    }
  }

  lemma LastLow(g: Tables, p: seq<Stmt>, s: State, r: State, m: Model)
    requires p != [] && AreLow(g, p[..|p| - 1], s, r, m)
    ensures AreLow(g, p, s, r[IterVar(p[|p| - 1]) := IntV(LoV(g, IterVar(p[|p| - 1]), s, m))], m)
  {
    hide LoV, IterVar;
    assert forall b | 0 <= b < |p| - 1 :: p[..|p| - 1][b] == p[b];
  }

  lemma LoopsOfPath(g: Tables, t: Tree, n: Tree)
    requires World(g, t) && WellFormedTables(g) && n in Nodes(t)
    ensures InPlace(g, n) && LoopsOf(t, PathOf(g, Key(n)))
  {
    hide LoopKey, LoopOf, World, Nodes, WellFormedTables, PathOf, TreeVars;
    WorldTables(g, t);
    WorldPlaces(g, t, n);
    forall b | 0 <= b < |PathOf(g, Key(n))| ensures IterVar(PathOf(g, Key(n))[b]) in TreeVars(t) {
      Branch(g, TreeVars(t), Key(n), b);
      var w := WorldNode(g, t, LoopKey(PathOf(g, Key(n))[b]));
      WorldPlaces(g, t, w);
      InVars(t, w);
    }
  }

  // ----- the state at the end of the last loop of the block -----

  /** At the end of the last loop of node `n`, in the first iteration of `n` and of the loops around
      it: everything is done but the first iteration of leaf `u`. */
  ghost predicate Gap(g: Tables, t: Tree, n: Tree, u: Tree, env: string -> int, s: State, m: Model)
    requires WellFormedTables(g) && n.Node? && n.kids != [] && u.Leaf? && InPlace(g, n) && InPlace(g, u)
  {
    && AssumedIn(g, t, s, m) && OnlyMissing(g, t, u, env, s, m) && IsIteration(g, Key(u), env, s, m)
    && (forall v :: env(v) == LoV(g, v, s, m))
    && AreLow(g, PathOf(g, Key(n)), s, s, m) && Lookup(s, Last(n).v) == IntV(HiV(g, Last(n).v, s, m))
  }

  lemma GapExists(g: Tables, t: Tree, n: Tree, i: nat, u: Tree, s0: State, m: Model)
    returns (env: string -> int, s: State)
    requires World(g, t) && WellFormedTables(g) && Standard(m) && InFrontOf(t, n, i, u) && AssumedIn(g, t, s0, m)
    ensures InPlace(g, n) && InPlace(g, u) && Gap(g, t, n, u, env, s, m)
  {
    hide LoopKey, LoopOf, World, Nodes, WellFormedTables, OnlyMissing, AssumedIn, TreeVars, LoV, HiV, IterVar,
      AllDoneIn, IsIteration, PathOf, Broken, AtLows, InView, Run, Standard, Whole;
    var k := TreeEnds(g, t, s0, m);
    var s1 := Run(Whole(t), s0, k, m).value;
    Places(g, t, n, i, u);
    LoopsOfPath(g, t, n);
    var last, p := Last(n), PathOf(g, Key(n));
    LowestIsIteration(g, t, u, "", s1, m);
    env := Lowest(g, s1, m);
    assert forall v :: env(v) == LoV(g, v, s1, m);
    BreakOne(g, t, u, env, s1, m);
    var s2 := Broken(g, u, env, s1, m);
    OutChanges(t, u);
    forall v ensures LoV(g, v, s2, m) == LoV(g, v, s1, m) && HiV(g, v, s2, m) == HiV(g, v, s1, m) {
      BrokenBounds(g, t, u, env, v, s1, m);
    }
    LowsKeep(g, t, u, env, p, s2, m);
    var s3 := AtLows(g, p, s2, m);
    InVars(t, last);
    s := s3[last.v := IntV(HiV(g, last.v, s3, m))];
    SetVar(g, t, u, env, s3, last.v, IntV(HiV(g, last.v, s3, m)), m);
    OffPath(g, t, n);
    AssignOffPath(g, p, s2, s3, last.v, IntV(HiV(g, last.v, s3, m)), s, m);
    LowestIs(g, t, u, env, s, m);
  }

  lemma BrokenBounds(g: Tables, t: Tree, u: Tree, env: string -> int, v: string, s: State, m: Model)
    requires World(g, t) && u in Nodes(t) && u.Leaf? && InPlace(g, u) && u.out in Changing(t)
    ensures LoV(g, v, Broken(g, u, env, s, m), m) == LoV(g, v, s, m)
    ensures HiV(g, v, Broken(g, u, env, s, m), m) == HiV(g, v, s, m)
  {
    hide LoopKey, LoopOf, World, Nodes, InPlace, LoV, HiV, Changing, IndexAt, ValueOf, Store;
    TableBoundsKept(g, t, v, s, u.out,
                    Store(Lookup(s, u.out), IndexAt(g, u, env, s, m), Wrong(ValueOf(g, u, env, s, m))), m);
  }

  lemma OffPath(g: Tables, t: Tree, n: Tree)
    requires World(g, t) && WellFormedTables(g) && n in Nodes(t) && n.Node? && n.kids != []
    ensures InPlace(g, n) && forall b | 0 <= b < |PathOf(g, Key(n))| :: IterVar(PathOf(g, Key(n))[b]) != Last(n).v
  {
    hide LoopKey, LoopOf, World, Nodes, WellFormedTables, PathOf;
    KidVarNew(g, t, n, |n.kids| - 1, map[], 0);
  }

  lemma AssignOffPath(g: Tables, p: seq<Stmt>, s: State, r: State, x: string, w: Value, q: State, m: Model)
    requires AreLow(g, p, s, r, m) && q == r[x := w] && forall b | 0 <= b < |p| :: IterVar(p[b]) != x
    requires forall v :: LoV(g, v, q, m) == LoV(g, v, s, m)
    ensures AreLow(g, p, q, q, m)
  {
    hide LoV, IterVar;
  }

  lemma LowestIs(g: Tables, t: Tree, u: Tree, env: string -> int, s: State, m: Model)
    requires World(g, t) && WellFormedTables(g) && u in Nodes(t) && InPlace(g, u) && AssumedIn(g, t, s, m)
    requires forall v :: env(v) == LoV(g, v, s, m)
    ensures IsIteration(g, Key(u), env, s, m)
  {
    hide LoopKey, LoopOf, World, Nodes, PathOf, WellFormedTables, LoV, AssumedIn, IterVar, Within;
    LowestIsIteration(g, t, u, "", s, m);
  }

  // ----- what the generated invariants say there -----

  lemma LowIsNow(g: Tables, p: seq<Stmt>, s: State, m: Model)
    requires AreLow(g, p, s, s, m)
    ensures forall b | 0 <= b < |p| ::
      Lookup(s, IterVar(p[b])).IntV? && Now(IterVar(p[b]), s) == LoV(g, IterVar(p[b]), s, m)
  {
    hide LoV;
  }

  /** At its first iteration a path is inside all its loops. */
  lemma LowIsInside(g: Tables, t: Tree, n: Tree, s: State, m: Model)
    requires World(g, t) && WellFormedTables(g) && n in Nodes(t) && InPlace(g, n) && AssumedIn(g, t, s, m)
    requires AreLow(g, PathOf(g, Key(n)), s, s, m)
    ensures InsideAll(g, PathOf(g, Key(n)), s, m)
  {
    hide LoopKey, LoopOf, World, Nodes, PathOf, WellFormedTables, LoV, HiV, AssumedIn, IterVar, TreeVars, Eval;
    var p := PathOf(g, Key(n));
    WorldTables(g, t);
    LowIsNow(g, p, s, m);
    forall b | 0 <= b < |p| ensures LoV(g, IterVar(p[b]), s, m) < HiV(g, IterVar(p[b]), s, m) {
      Branch(g, TreeVars(t), Key(n), b);
      PathBound(g, t, IterVar(p[b]), s, m);
    }
  }

  lemma PathBound(g: Tables, t: Tree, v: string, s: State, m: Model)
    requires World(g, t) && WellFormedTables(g) && v in g.nesting && AssumedIn(g, t, s, m)
    ensures LoV(g, v, s, m) < HiV(g, v, s, m)
  {
    hide LoopKey, LoopOf, World, Nodes, WellFormedTables, AssumedIn, Eval;
    var w := TableBounds(g, t, v);
    WideBounds(g, t, w, s, m);
  }

  /** The invariant of the last loop holds: the missing iteration is not in view. */
  lemma LastHolds(g: Tables, t: Tree, infos: map<string, Info>, previous: map<string, seq<string>>, n: Tree, i: nat,
                  u: Tree, env: string -> int, s: State, m: Model)
    requires World(g, t) && WellFormedTables(g) && GeneratedInfos(g, infos, previous) && Standard(m)
    requires InFrontOf(t, n, i, u) && InPlace(g, n) && InPlace(g, u) && Gap(g, t, n, u, env, s, m)
    ensures MeansIn(g, t, infos, Key(Last(n)), false, s, m)
  {
    hide LoopKey, LoopOf, World, Nodes, PathOf, WellFormedTables, LoV, HiV, AssumedIn, GeneratedInfos, Standard, Meet,
      IsDescribed, IsIteration, DoneAt, Differ, InView, BoundsAt, AreLow;
    Places(g, t, n, i, u);
    LastInBounds(g, t, n, s, m);
    var key := Key(Last(n));
    PlacedAreLoops(g);
    forall w, e | w in Nodes(t) && w.Leaf? && InPlace(g, w) && IsIteration(g, Key(w), e, s, m)
        && IsDescribed(g, infos, w.out, Key(w), key, e, false, s, m)
      ensures DoneAt(g, w, e, s, m)
    {
      if !DoneAt(g, w, e, s, m) {
        OutOfView(g, t, infos, previous, n, i, u, e, env, s, m);
        assert false;
      }
    }
  }

  lemma LastInBounds(g: Tables, t: Tree, n: Tree, s: State, m: Model)
    requires World(g, t) && WellFormedTables(g) && n in Nodes(t) && n.Node? && n.kids != [] && InPlace(g, n)
    requires AssumedIn(g, t, s, m) && AreLow(g, PathOf(g, Key(n)), s, s, m)
    requires Lookup(s, Last(n).v) == IntV(HiV(g, Last(n).v, s, m))
    ensures Key(Last(n)) in g.loops && Key(Last(n)) in g.containing && BoundsAt(g, Key(Last(n)), s, m)
  {
    hide LoopKey, LoopOf, World, Nodes, WellFormedTables, LoV, HiV, AssumedIn, AreLow, InsideAll, PathOf;
    LowIsInside(g, t, n, s, m);
    var last := Last(n);
    KidVarNew(g, t, n, |n.kids| - 1, s, 0);
    KidInPlace(g, t, n, |n.kids| - 1);
    KidChanges(t, n, |n.kids| - 1);
    WorldBounds(g, t, last);
    PathBound(g, t, last.v, s, m);
    AroundKid(g, n, last);
  }

  lemma AroundKid(g: Tables, n: Tree, kid: Tree)
    requires InPlace(g, n) && InPlace(g, kid) && PathOf(g, Key(kid)) == PathOf(g, Key(n)) + [LoopOf(kid)]
    ensures g.containing[Key(kid)] == PathOf(g, Key(n))
  {
    hide LoopKey, LoopOf;
    var q := PathOf(g, Key(kid));
    assert q[..|q| - 1] == PathOf(g, Key(n));
  }

  /** What the assumptions of the description theorem ask of a leaf. */
  lemma LeafScene(g: Tables, t: Tree, infos: map<string, Info>, previous: map<string, seq<string>>, u: Tree,
                  key: string, env: string -> int, free: bool, s: State, m: Model)
    requires World(g, t) && WellFormedTables(g) && GeneratedInfos(g, infos, previous) && Standard(m)
    requires u in Nodes(t) && u.Leaf? && InPlace(g, u) && key in g.loops && key in g.containing
    requires AssumedIn(g, t, s, m) && BoundsAt(g, key, s, m) && IsIteration(g, Key(u), env, s, m)
    ensures Situation(g, TreeVars(t), infos, previous, u.out, Key(u), key, env, free, s, m)
  {
    hide LoopKey, LoopOf, World, Nodes, PathOf, WellFormedTables, IterVar, AssumedIn, IsIteration, GeneratedInfos,
      Standard, Setup, Writes, WritesAlone, LoV, HiV;
    WorldTables(g, t);
    LeafWrites(g, t, u, s, m);
    LeafWritesAlone(g, t, u);
    LeafAroundNone(g, t, u, key);
  }

  lemma OutOfView(g: Tables, t: Tree, infos: map<string, Info>, previous: map<string, seq<string>>, n: Tree, i: nat,
                  u: Tree, e: string -> int, env: string -> int, s: State, m: Model)
    requires World(g, t) && WellFormedTables(g) && GeneratedInfos(g, infos, previous) && Standard(m)
    requires InFrontOf(t, n, i, u) && InPlace(g, n) && InPlace(g, u) && Gap(g, t, n, u, env, s, m)
    requires IsIteration(g, Key(u), e, s, m) && !Differ(PathOf(g, Key(u)), e, env) && Key(Last(n)) in g.loops
    ensures !IsDescribed(g, infos, u.out, Key(u), Key(Last(n)), e, false, s, m)
  {
    hide LoopKey, LoopOf, World, Nodes, PathOf, WellFormedTables, LoV, HiV, AssumedIn, GeneratedInfos, Standard, Meet,
      IsDescribed, IsIteration, OnlyMissing, InView, BoundsAt, AreLow, EarlierWithin, Differ, Situation, InFrontOf,
      Setup, Key;
    WorldTables(g, t);
    InFrontKids(t, n, i, u);
    Places(g, t, n, i, u);
    InsideKid(g, t, n, i, u);
    LastInBounds(g, t, n, s, m);
    LeafScene(g, t, infos, previous, u, Key(Last(n)), e, false, s, m);
    NotEarlier(g, n, u, e, env, s, m);
    NotDescribed(g, TreeVars(t), infos, previous, u.out, Key(u), Key(Last(n)), e, s, m);
  }

  lemma NotDescribed(g: Tables, loopvars: set<string>, infos: map<string, Info>, previous: map<string, seq<string>>,
                     a: string, x: string, here: string, e: string -> int, s: State, m: Model)
    requires Situation(g, loopvars, infos, previous, a, x, here, e, false, s, m)
    requires WellFormedTables(g) && !InView(g, x, here, false)
    requires !EarlierWithin(PathOf(g, here), Meet(g, x, here), e, s)
    ensures !IsDescribed(g, infos, a, x, here, e, false, s, m)
  {
    hide LoopKey, PathOf, WellFormedTables, Meet, IsDescribed, InView, EarlierWithin, Executed;
    DescribedExactly(g, loopvars, infos, previous, a, x, here, e, false, s, m);
  }

  lemma NotEarlier(g: Tables, n: Tree, u: Tree, e: string -> int, env: string -> int, s: State, m: Model)
    requires InPlace(g, n) && InPlace(g, u) && n.Node? && n.kids != [] && InPlace(g, Last(n))
    requires PathOf(g, Key(n)) <= PathOf(g, Key(u))
    requires PathOf(g, Key(Last(n))) == PathOf(g, Key(n)) + [LoopOf(Last(n))]
    requires AreLow(g, PathOf(g, Key(n)), s, s, m) && !Differ(PathOf(g, Key(u)), e, env)
    requires forall v :: env(v) == LoV(g, v, s, m)
    ensures !EarlierWithin(PathOf(g, Key(Last(n))), |PathOf(g, Key(n))|, e, s)
  {
    hide LoopKey, LoopOf, PathOf, LoV, IterVar, AreLow, CurrentUpTo;
    var p, q, r := PathOf(g, Key(n)), PathOf(g, Key(u)), PathOf(g, Key(Last(n)));
    LowIsNow(g, p, s, m);
    forall b | 0 <= b < |p| ensures e(IterVar(r[b])) == Now(IterVar(r[b]), s) {
      assert r[b] == p[b] == q[b];
    }
  }

  // ----- the next iteration of the node -----

  function Advanced(n: Tree, s: State): State { s[n.v := IntV(Now(n.v, s) + 1)] }

  /** The invariant of the node does not hold in its next iteration: the missing one is earlier. */
  lemma NodeFails(g: Tables, t: Tree, infos: map<string, Info>, previous: map<string, seq<string>>, n: Tree, i: nat,
                  u: Tree, env: string -> int, s: State, m: Model)
    requires World(g, t) && WellFormedTables(g) && GeneratedInfos(g, infos, previous) && Standard(m)
    requires InFrontOf(t, n, i, u) && InPlace(g, n) && InPlace(g, u) && Gap(g, t, n, u, env, s, m)
    ensures Lookup(s, n.v).IntV? && !MeansIn(g, t, infos, Key(n), false, Advanced(n, s), m)
  {
    hide LoopKey, LoopOf, World, Nodes, PathOf, WellFormedTables, LoV, HiV, AssumedIn, GeneratedInfos, Standard, Meet,
      IsDescribed, IsIteration, DoneAt, InView, BoundsAt, AreLow, Executed, TreeVars, InFrontOf, OnlyMissing, Key;
    InFrontKids(t, n, i, u);
    InFrontNode(t, n, i, u);
    Places(g, t, n, i, u);
    NodeVarLow(g, t, n, s, m);
    var r := Advanced(n, s);
    SetVar(g, t, u, env, s, n.v, r[n.v], m);
    AtIsLoop(g, u);
    IterationKept(g, t, Key(u), env, s, n.v, r[n.v], m);
    EarlierInNode(g, t, n, env, s, m);
    AtIsLoop(g, n);
    if BoundsAt(g, Key(n), r, m) {
      EarlierSeen(g, t, infos, previous, n, u, env, r, m);
      UndoneThere(g, t, u, env, r, m);
    }
  }

  lemma UndoneThere(g: Tables, t: Tree, u: Tree, env: string -> int, s: State, m: Model)
    requires WellFormedTables(g) && u.Leaf? && InPlace(g, u) && OnlyMissing(g, t, u, env, s, m)
    ensures !DoneAt(g, u, env, s, m)
  {
    hide DoneAt;
  }

  lemma EarlierSeen(g: Tables, t: Tree, infos: map<string, Info>, previous: map<string, seq<string>>, n: Tree,
                    u: Tree, env: string -> int, s: State, m: Model)
    requires InPlace(g, n) && InPlace(g, u) && LoopOf(n) in PathOf(g, Key(u))
    requires EarlierWithin(PathOf(g, Key(n)), |PathOf(g, Key(n))|, env, s) && BoundsAt(g, Key(n), s, m)
    requires WellFormedTables(g) && IsIteration(g, Key(u), env, s, m)
    requires AssumedIn(g, t, s, m) && GeneratedInfos(g, infos, previous) && Standard(m)
    requires u in Nodes(t) && u.Leaf? && World(g, t)
    ensures IsDescribed(g, infos, u.out, Key(u), Key(n), env, false, s, m)
  {
    hide LoopKey, LoopOf, World, Nodes, PathOf, WellFormedTables, AssumedIn, GeneratedInfos, Standard, Situation,
      IsDescribed, IsIteration, BoundsAt, Executed, EarlierWithin, Setup;
    WorldTables(g, t);
    LeafScene(g, t, infos, previous, u, Key(n), env, false, s, m);
    InsideIsCovered(g, TreeVars(t), infos, previous, u.out, Key(u), Key(n), env, false, s, m);
    ExecutedInside(g, TreeVars(t), Key(u), Key(n), env, s);
  }

  lemma InFrontNode(t: Tree, n: Tree, i: nat, u: Tree)
    requires InFrontOf(t, n, i, u)
    ensures n in Nodes(t) && n.v in TreeVars(t) && n.v in Changing(t)
  {
    hide Nodes;
  }

  lemma NodeVarLow(g: Tables, t: Tree, n: Tree, s: State, m: Model)
    requires World(g, t) && WellFormedTables(g) && n in Nodes(t) && InPlace(g, n)
    requires AreLow(g, PathOf(g, Key(n)), s, s, m)
    ensures Lookup(s, n.v) == IntV(LoV(g, n.v, s, m))
  {
    hide LoopKey, LoopOf, World, Nodes, WellFormedTables, LoV;
    WorldPlaces(g, t, n);
    OwnEnd(g, n);
  }

  lemma EarlierInNode(g: Tables, t: Tree, n: Tree, env: string -> int, s: State, m: Model)
    requires World(g, t) && WellFormedTables(g) && n in Nodes(t) && InPlace(g, n)
    requires AreLow(g, PathOf(g, Key(n)), s, s, m) && forall v :: env(v) == LoV(g, v, s, m)
    ensures EarlierWithin(PathOf(g, Key(n)), |PathOf(g, Key(n))|, env, Advanced(n, s))
  {
    hide LoopKey, LoopOf, World, Nodes, WellFormedTables, LoV, AreLow, PathOf, IterVar, EarlierWithin;
    var p := PathOf(g, Key(n));
    NodePath(g, t, n);
    LowIsNow(g, p, s, m);
    OneFurtherIsEarlier(p, n.v, env, s);
  }

  lemma NodePath(g: Tables, t: Tree, n: Tree)
    requires World(g, t) && n in Nodes(t) && InPlace(g, n)
    ensures var p := PathOf(g, Key(n));
      && p != [] && IterVar(p[|p| - 1]) == n.v
      && forall i, j | 0 <= i < j < |p| :: IterVar(p[i]) != IterVar(p[j])
  {
    hide LoopKey, LoopOf, World, Nodes, WellFormedTables, PathOf, IterVar, Setup, TreeVars;
    WorldTables(g, t);
    WorldPlaces(g, t, n);
    OwnEnd(g, n);
    AtIsLoop(g, n);
    PathVars(g, TreeVars(t), Key(n));
  }

  lemma OneFurtherIsEarlier(p: seq<Stmt>, v: string, env: string -> int, s: State)
    requires p != [] && IterVar(p[|p| - 1]) == v
    requires forall b | 0 <= b < |p| :: env(IterVar(p[b])) == Now(IterVar(p[b]), s)
    requires forall i, j | 0 <= i < j < |p| :: IterVar(p[i]) != IterVar(p[j])
    ensures EarlierWithin(p, |p|, env, s[v := IntV(Now(v, s) + 1)])
  {
    hide IterVar;
    var r := s[v := IntV(Now(v, s) + 1)];
    forall b | 0 <= b < |p| - 1 ensures env(IterVar(p[b])) == Now(IterVar(p[b]), r) {
      assert IterVar(p[b]) != IterVar(p[|p| - 1]);
    }
    assert CurrentUpTo(p, |p| - 1, env, r) && env(IterVar(p[|p| - 1])) < Now(IterVar(p[|p| - 1]), r);
  }

  // ----- the condition between them -----

  /** The conditions of a program contain those of every loop. */
  lemma {:induction false} LoopConds(t: Tree, u: Tree, q: State -> bool, inv: Reading, adm: State -> bool, m: Model)
    returns (q': State -> bool)
    requires u in Nodes(t) && HaveKids(t) && Conds(LoopOf(t), q, inv, adm, m)
    ensures Conds(LoopOf(u), q', inv, adm, m)
    decreases t
  {
    hide LoopKey, LoopOf, Conds, Pre, HaveKids, KidsStmt;
    if u == t {
      q' := q;
    } else {
      var i :| 0 <= i < |t.kids| && u in Nodes(t.kids[i]);
      HasKid(t);
      KidHasKids(t, i);
      BodyConds(t, q, inv, adm, m);
      var r := KidConds(t, |t.kids|, i, s => Pre(Incr(t.v), s' => inv(LoopKey(LoopOf(t)), s'), inv, m, s), inv, adm, m);
      q' := LoopConds(t.kids[i], u, r, inv, adm, m);
    }
  }

  lemma BodyConds(t: Tree, q: State -> bool, inv: Reading, adm: State -> bool, m: Model)
    requires t.Node? && t.kids != [] && Conds(LoopOf(t), q, inv, adm, m)
    ensures Conds(KidsStmt(t, |t.kids|), s => Pre(Incr(t.v), s' => inv(LoopKey(LoopOf(t)), s'), inv, m, s), inv, adm, m)
  {
    hide LoopKey, KidsStmt, LoopOf, Conds, Pre;
    BodyIs(t);
    WhileConds(LoopOf(t), q, inv, adm, m);
    SeqConds(KidsStmt(t, |t.kids|), Incr(t.v), s => inv(LoopKey(LoopOf(t)), s), inv, adm, m);
  }

  lemma BodyIs(t: Tree)
    requires t.Node? && t.kids != []
    ensures LoopOf(t).body == Seq(KidsStmt(t, |t.kids|), Incr(t.v))
  {
    hide KidsStmt;
  }

  lemma WhileConds(c: Stmt, q: State -> bool, inv: Reading, adm: State -> bool, m: Model)
    requires c.While? && Conds(c, q, inv, adm, m)
    ensures Conds(c.body, s => inv(LoopKey(c), s), inv, adm, m)
  {
    hide LoopKey, Holds, Pre;
  }

  lemma SeqConds(c1: Stmt, c2: Stmt, q: State -> bool, inv: Reading, adm: State -> bool, m: Model)
    requires Conds(Seq(c1, c2), q, inv, adm, m)
    ensures Conds(c2, q, inv, adm, m) && Conds(c1, s => Pre(c2, q, inv, m, s), inv, adm, m)
  {
    hide LoopKey, Holds, Pre;
  }

  lemma {:induction false} KidConds(t: Tree, n: nat, i: nat, q: State -> bool, inv: Reading, adm: State -> bool,
                                    m: Model) returns (q': State -> bool)
    requires t.Node? && i < n <= |t.kids| && Conds(KidsStmt(t, n), q, inv, adm, m)
    ensures Conds(LoopOf(t.kids[i]), q', inv, adm, m)
    decreases n
  {
    hide LoopKey, LoopOf, Conds, Pre, KidsStmt;
    var r := LastConds(t, n, q, inv, adm, m);
    if i == n - 1 {
      q' := q;
    } else {
      q' := KidConds(t, n - 1, i, r, inv, adm, m);
    }
  }

  lemma LastConds(t: Tree, n: nat, q: State -> bool, inv: Reading, adm: State -> bool, m: Model)
    returns (q': State -> bool)
    requires t.Node? && 0 < n <= |t.kids| && Conds(KidsStmt(t, n), q, inv, adm, m)
    ensures Conds(LoopOf(t.kids[n - 1]), q, inv, adm, m)
    ensures n > 1 ==> Conds(KidsStmt(t, n - 1), q', inv, adm, m)
  {
    hide LoopKey, LoopOf, Holds;
    var kid := t.kids[n - 1];
    if n == 1 {
      assert KidsStmt(t, 1) == Seq(Start(kid), LoopOf(kid));
      q' := q;
    } else {
      var c1, c2 := Seq(KidsStmt(t, n - 1), Start(kid)), LoopOf(kid);
      assert KidsStmt(t, n) == Seq(c1, c2);
      var mid := s => Pre(c2, q, inv, m, s);
      assert Conds(c1, mid, inv, adm, m);
      q' := s => Pre(Start(kid), mid, inv, m, s);
    }
  }

  /** At the end of the last loop of a node, the invariant of that loop leads to the invariant of
      the node in its next iteration. */
  lemma ExitCondition(t: Tree, n: Tree, q: State -> bool, inv: Reading, adm: State -> bool, s: State, m: Model)
    requires n in Nodes(t) && n.Node? && HaveKids(t) && n.kids != [] && Conds(LoopOf(t), q, inv, adm, m)
    requires adm(s) && inv(Key(Last(n)), s) && !Holds(Test(Last(n)), s, m)
    ensures inv(Key(n), s[n.v := Eval(Incr(n.v).rval, s, m)])
  {
    hide LoopKey, KidsStmt, Holds, HaveKids, Eval, Nodes;
    var r := LoopConds(t, n, q, inv, adm, m);
    BodyConds(n, r, inv, adm, m);
    var after := (s: State) => Pre(Incr(n.v), s' => inv(LoopKey(LoopOf(n)), s'), inv, m, s);
    var r' := LastConds(n, |n.kids|, s => Pre(Incr(n.v), s' => inv(LoopKey(LoopOf(n)), s'), inv, m, s), inv, adm, m);
    ExitOf(LoopOf(Last(n)), s => Pre(Incr(n.v), s' => inv(LoopKey(LoopOf(n)), s'), inv, m, s), inv, adm, s, m);
  }

  lemma ExitOf(c: Stmt, q: State -> bool, inv: Reading, adm: State -> bool, s: State, m: Model)
    requires c.While? && Conds(c, q, inv, adm, m) && adm(s) && inv(LoopKey(c), s) && !Holds(c.test, s, m)
    ensures q(s)
  {
    hide LoopKey, Holds;
  }

  // ----- the theorem -----

  ghost function Meaning(g: Tables, t: Tree, infos: map<string, Info>, free: bool, m: Model): Reading
    requires WellFormedTables(g)
  {
    (key: string, s: State) => MeansIn(g, t, infos, key, free, s, m)
  }

  /** In a tree of any other shape some generated condition fails, whatever the postcondition. */
  lemma OtherwiseSomeFails(g: Tables, t: Tree, infos: map<string, Info>, previous: map<string, seq<string>>,
                           q: State -> bool, s0: State, m: Model)
    requires World(g, t) && WellFormedTables(g) && GeneratedInfos(g, infos, previous) && Standard(m)
    requires !LeavesFirst(t) && AssumedIn(g, t, s0, m)
    ensures !Conds(Whole(t), q, Meaning(g, t, infos, false, m), AdmissibleIn(g, t, m), m)
  {
    hide LoopKey, LoopOf, World, Nodes, PathOf, WellFormedTables, LoV, HiV, AssumedIn, GeneratedInfos, Standard,
      OnlyMissing, InFrontOf, AreLow, IsIteration, LeavesFirst, Conds, MeansIn, Holds, HaveKids;
    var inv, adm := Meaning(g, t, infos, false, m), AdmissibleIn(g, t, m);
    WorldHasKids(g, t);
    var n, i, u := NotLeavesFirst(t);
    InFrontKids(t, n, i, u);
    var env, s := GapExists(g, t, n, i, u, s0, m);
    LastHolds(g, t, infos, previous, n, i, u, env, s, m);
    NodeFails(g, t, infos, previous, n, i, u, env, s, m);
    IncrValue(n.v, s, m);
    TestReads(g, t, Last(n), s, m);
    if Conds(Whole(t), q, inv, adm, m) {
      WholeConds(t, q, inv, adm, m);
      ExitCondition(t, n, q, inv, adm, s, m);
      assert false;
    }
  }

  lemma WholeConds(t: Tree, q: State -> bool, inv: Reading, adm: State -> bool, m: Model)
    requires Conds(Whole(t), q, inv, adm, m)
    ensures Conds(LoopOf(t), q, inv, adm, m)
  {
    hide LoopKey, LoopOf;
  }

  lemma InFrontKids(t: Tree, n: Tree, i: nat, u: Tree)
    requires InFrontOf(t, n, i, u)
    ensures n in Nodes(t) && n.Node? && n.kids != [] && Last(n) in Nodes(t) && u.Leaf?
  {
    hide Nodes;
    KidChanges(t, n, |n.kids| - 1);
  }

  /** The generated invariants discharge the conditions exactly in the trees in which nothing is
      missed: all, when variables without a range are free, and those of the shape above otherwise.
      That there is a state which meets the assumptions is all that is asked beside. */
  lemma DischargeIff(g: Tables, t: Tree, infos: map<string, Info>, previous: map<string, seq<string>>,
                     invs: map<string, Exp>, q: Exp, free: bool, s0: State, m: Model)
    requires World(g, t) && WellFormedTables(g) && GeneratedInfos(g, infos, previous) && Standard(m)
    requires ReadsIn(g, t, infos, invs, free, m) && KeyVars(q) == {} && AssumedIn(g, t, s0, m)
    requires forall s | AssumedIn(g, t, s, m) && AllDoneIn(g, t, s, m) :: Holds(q, s, m)
    ensures Wp(Whole(t), q, invs, false).Some?
    ensures AllValid(Wp(Whole(t), q, invs, false).value.conds, AdmissibleIn(g, t, m), m) <==> free || LeavesFirst(t)
  {
    hide LoopKey, LoopOf, WellFormedTables, Nodes, AssumedIn, Changing, AllDoneIn, WellScoped, VarsApart, DistinctLoops,
      Standard, TablesOf, Setup, Holds, Wp, GeneratedInfos, NothingMissed, MeansIn, KeyVars, LoopKeys, PlainStmt,
      KeySafe, Whole, LeavesFirst, Conds, AllValid;
    var adm := AdmissibleIn(g, t, m);
    if free || LeavesFirst(t) {
      MissNothing(g, t, free);
      TreeInvariantsDischarge(g, t, infos, previous, invs, q, free, m);
    } else {
      PartOfWhole(t);
      TreeShape(t, {}, Changing(t));
      TreeAssigns(t);
      ClosedFor(g, t, Whole(t), m);
      var post := (s: State) => Holds(q, s, m);
      ConditionsMean(Whole(t), q, post, invs, false, {}, Meaning(g, t, infos, false, m), adm, m);
      OtherwiseSomeFails(g, t, infos, previous, post, s0, m);
    }
  }
}
