/** The invariants the generator builds for loop trees, and what they discharge. */
module TreeInvariants {
  import opened StencilIr
  import opened Interpret
  import opened Verify
  import opened VerifyTheorems
  import opened Invariant
  import opened Termination
  import opened Siblings
  import opened SiblingTables
  import opened SiblingCoverage
  import opened NestMeaning
  import opened LoopTrees
  import opened TreeTables
  import opened TreeMeaning
  import opened TreeVcs
  import opened TreeRuns
  import opened Hoare

  /** What the generated invariant of a loop says: its bounds, and for every array that every
      iteration its reached clauses describe is done. */
  ghost predicate MeansIn(g: Tables, t: Tree, infos: map<string, Info>, key: string, free: bool, s: State, m: Model)
    requires WellFormedTables(g)
  {
    && key in g.loops && BoundsAt(g, key, s, m)
    && forall u, env | u in Nodes(t) && u.Leaf? && InPlace(g, u) && IsIteration(g, Key(u), env, s, m)
         && IsDescribed(g, infos, u.out, Key(u), key, env, free, s, m) :: DoneAt(g, u, env, s, m)
  }

  /** No leaf stands, for any loop, in an earlier branch out of view. */
  ghost predicate NothingMissed(g: Tables, t: Tree, free: bool)
    requires WellFormedTables(g)
  {
    forall u, key | u in Nodes(t) && u.Leaf? && InPlace(g, u) && key in g.loops && EarlierBranch(g, Key(u), key) ::
      InView(g, Key(u), key, free)
  }

  // ----- the index mentions every loop around the write -----

  /** The first iteration. */
  function Lowest(g: Tables, s: State, m: Model): string -> int { (v: string) => LoV(g, v, s, m) }

  function OneUp(env: string -> int, x: string): string -> int { (v: string) => if v == x then env(v) + 1 else env(v) }

  lemma LowestIsIteration(g: Tables, t: Tree, u: Tree, x: string, s: State, m: Model)
    requires World(g, t) && WellFormedTables(g) && u in Nodes(t) && InPlace(g, u) && AssumedIn(g, t, s, m)
    ensures IsIteration(g, Key(u), Lowest(g, s, m), s, m) && IsIteration(g, Key(u), OneUp(Lowest(g, s, m), x), s, m)
  {
    hide LoopKey, LoopOf, World, Nodes, PathOf, WellFormedTables, IterVar, Eval, AssumedIn;
    forall v | v in g.nesting ensures v in g.mins && v in g.maxs && LoV(g, v, s, m) + 1 < HiV(g, v, s, m) {
      var w := TableBounds(g, t, v);
      WideBounds(g, t, w, s, m);
    }
  }

  lemma WideBounds(g: Tables, t: Tree, n: Tree, s: State, m: Model)
    requires WellFormedTables(g) && n in Nodes(t) && AssumedIn(g, t, s, m)
    ensures IntOf(Eval(n.hi, s, m)) - IntOf(Eval(n.lo, s, m)) > 1
  {
    hide LoopKey, LoopOf, WellFormedTables, Nodes, Eval;
  }

  /** An injective index mentions the variables of all loops on the path. */
  lemma IndexMentionsPath(g: Tables, t: Tree, u: Tree, b: nat, s: State, m: Model)
    requires World(g, t) && WellFormedTables(g) && u in Nodes(t) && u.Leaf? && InPlace(g, u) && AssumedIn(g, t, s, m)
    requires b < |PathOf(g, Key(u))|
    ensures IterVar(PathOf(g, Key(u))[b]) in Vars(u.idx)
  {
    hide LoopKey, LoopOf, World, Nodes, PathOf, WellFormedTables, IterVar, Eval, AssumedIn, IsIteration, Vars, LoV,
      PathVarSet;
    var p := PathOf(g, Key(u));
    var x := IterVar(p[b]);
    var env := Lowest(g, s, m);
    LowestIsIteration(g, t, u, x, s, m);
    assert env(IterVar(p[b])) != OneUp(env, x)(IterVar(p[b]));
    IndicesDiffer(g, t, u, env, OneUp(env, x), s, m);
    if x !in Vars(u.idx) {
      forall y | y in Vars(u.idx) ensures Lookup(PutAt(s, p, env), y) == Lookup(PutAt(s, p, OneUp(env, x)), y) {
        PutAtLookup(s, p, env, y);
        PutAtLookup(s, p, OneUp(env, x), y);
      }
      Coincidence(u.idx, PutAt(s, p, env), PutAt(s, p, OneUp(env, x)), m);
    }
  }

  lemma LeafWrites(g: Tables, t: Tree, u: Tree, s: State, m: Model)
    requires World(g, t) && WellFormedTables(g) && u in Nodes(t) && u.Leaf? && InPlace(g, u) && AssumedIn(g, t, s, m)
    ensures Writes(g, u.out, Key(u))
  {
    hide LoopKey, World, Nodes, PathOf, WellFormedTables, IterVar, AssumedIn, Vars, LoopOf;
    LeafIndexVars(u);
    forall b | 0 <= b < |PathOf(g, Key(u))|
      ensures IterVar(PathOf(g, Key(u))[b]) in Vars(u.idx)
    {
      IndexMentionsPath(g, t, u, b, s, m);
    }
  }

  lemma LeafIndexVars(u: Tree)
    requires u.Leaf?
    ensures IndexVars(LoopOf(u), u.out) == Vars(u.idx)
  {
    var body := LoopOf(u).body;
    assert IndexVars(Inner(u), u.out) == Vars(u.idx) && IndexVars(body.last, u.out) == {};
    assert IndexVars(body, u.out) == IndexVars(body.init, u.out) + IndexVars(body.last, u.out);
  }

  // ----- every leaf writes its array alone -----

  /** Variables in the indices of an array belong to leaves that write it. */
  lemma {:induction false} IndexVarsOfLeaves(t: Tree, a: string, x: string) returns (u: Tree)
    requires x in IndexVars(Whole(t), a) && (t.Node? ==> t.kids != [])
    requires forall n | n in Nodes(t) && n.Node? :: n.kids != []
    ensures u in Nodes(t) && u.Leaf? && u.out == a && x in Vars(u.idx)
    decreases t, 0
  {
    hide LoopOf, KidsStmt, Nodes;
    WholeIndexVars(t, a);
    RootIn(t);
    if t.Leaf? {
      LeafIndexVars(t);
      InnerLeaf(t, a);
      u := t;
    } else {
      u := IndexVarsOfKids(t, |t.kids|, a, x);
    }
  }

  lemma WholeIndexVars(t: Tree, a: string)
    ensures IndexVars(Whole(t), a) == IndexVars(Inner(t), a) == IndexVars(LoopOf(t), a)
  {
    hide Inner;
    var body := LoopOf(t).body;
    assert IndexVars(Start(t), a) == {} && IndexVars(Incr(t.v), a) == {};
    assert body.init == Inner(t) && body.last == Incr(t.v);
    assert IndexVars(body, a) == IndexVars(body.init, a) + IndexVars(body.last, a);
    assert IndexVars(Whole(t), a) == IndexVars(Start(t), a) + IndexVars(LoopOf(t), a);
  }

  lemma InnerLeaf(t: Tree, a: string)
    requires t.Leaf?
    ensures IndexVars(Inner(t), a) == if a == t.out then Vars(t.idx) else {}
  {
  }

  lemma {:induction false} IndexVarsOfKids(t: Tree, n: nat, a: string, x: string) returns (u: Tree)
    requires t.Node? && 0 < n <= |t.kids| && x in IndexVars(KidsStmt(t, n), a)
    requires forall n | n in Nodes(t) && n.Node? :: n.kids != []
    ensures u in Nodes(t) && u.Leaf? && u.out == a && x in Vars(u.idx)
    decreases t, -1, n
  {
    hide LoopOf, KidsStmt, Nodes;
    var kid := t.kids[n - 1];
    KidsIndexVars(t, n, a);
    KidIn(t, n - 1);
    RootIn(kid);
    if x in IndexVars(Whole(kid), a) {
      u := IndexVarsOfLeaves(kid, a, x);
    } else {
      u := IndexVarsOfKids(t, n - 1, a, x);
    }
  }

  lemma KidsIndexVars(t: Tree, n: nat, a: string)
    requires t.Node? && 0 < n <= |t.kids|
    ensures IndexVars(KidsStmt(t, n), a)
      == (if n == 1 then {} else IndexVars(KidsStmt(t, n - 1), a)) + IndexVars(Whole(t.kids[n - 1]), a)
  {
    hide LoopOf, Start;
    var kid := t.kids[n - 1];
    assert IndexVars(Whole(kid), a) == IndexVars(Start(kid), a) + IndexVars(LoopOf(kid), a);
    if n > 1 {
      assert KidsStmt(t, n) == Seq(Seq(KidsStmt(t, n - 1), Start(kid)), LoopOf(kid));
      assert IndexVars(Seq(KidsStmt(t, n - 1), Start(kid)), a)
        == IndexVars(KidsStmt(t, n - 1), a) + IndexVars(Start(kid), a);
    }
  }

  lemma LeafWritesAlone(g: Tables, t: Tree, u: Tree)
    requires World(g, t) && WellFormedTables(g) && u in Nodes(t) && u.Leaf? && InPlace(g, u)
    ensures WritesAlone(g, u.out, Key(u))
  {
    hide LoopKey, LoopOf, World, Nodes, PathOf, WellFormedTables, IterVar, Vars, IndexVars;
    WorldTables(g, t);
    WorldScope(g, t, u);
    forall k | k in g.loops && IterVar(g.loops[k]) in IndexVars(g.program, u.out)
      ensures exists b | 0 <= b < |PathOf(g, Key(u))| :: IterVar(PathOf(g, Key(u))[b]) == IterVar(g.loops[k])
    {
      IndexedIsOwn(g, t, u, IterVar(g.loops[k]));
      LoopVarChanges(g, t, k);
      assert IterVar(g.loops[k]) in Vars(u.idx) * Changing(t);
    }
    AloneIfWithin(g, TreeVars(t), u.out, Key(u));
  }

  lemma LoopVarChanges(g: Tables, t: Tree, k: string)
    requires World(g, t) && WellFormedTables(g) && k in g.loops
    ensures IterVar(g.loops[k]) in Changing(t)
  {
    hide LoopKey, LoopOf, World, Nodes, WellFormedTables;
    var w := WorldNode(g, t, k);
    WorldPlaces(g, t, w);
    InVars(t, w);
  }

  /** Different leaves write different arrays. */
  lemma IndexedIsOwn(g: Tables, t: Tree, u: Tree, x: string)
    requires World(g, t) && u in Nodes(t) && u.Leaf? && x in IndexVars(g.program, u.out)
    ensures x in Vars(u.idx)
  {
    hide LoopKey, LoopOf, Nodes, Vars, IndexVars, WellScoped, VarsApart, DistinctLoops, TreeVars, Outs, Setup,
      LoopsByKey, Containing, IsNesting, FindInit, FindMax, Whole;
    RootIn(t);
    forall n | n in Nodes(t) && n.Node? ensures n.kids != [] { ScopedKids(t, {}, Changing(t), n); }
    var w := IndexVarsOfLeaves(t, u.out, x);
  }

  // ----- generated against ideal -----

  lemma DescribedIffExecuted(g: Tables, t: Tree, infos: map<string, Info>, previous: map<string, seq<string>>,
                             u: Tree, key: string, env: string -> int, free: bool, s: State, m: Model)
    requires World(g, t) && WellFormedTables(g) && GeneratedInfos(g, infos, previous) && Standard(m)
    requires NothingMissed(g, t, free)
    requires u in Nodes(t) && u.Leaf? && InPlace(g, u) && key in g.loops && key in g.containing
    requires AssumedIn(g, t, s, m) && BoundsAt(g, key, s, m) && IsIteration(g, Key(u), env, s, m)
    ensures IsDescribed(g, infos, u.out, Key(u), key, env, free, s, m) <==> Executed(g, Key(u), key, env, s)
  {
    hide LoopKey, LoopOf, World, Nodes, PathOf, WellFormedTables, IterVar, AssumedIn, IsIteration, GeneratedInfos,
      Standard, Setup, InView, EarlierBranch, EarlierWithin, CurrentUpTo, Writes, WritesAlone, LoV, HiV, IsDescribed,
      Meet;
    WorldTables(g, t);
    LeafWrites(g, t, u, s, m);
    LeafWritesAlone(g, t, u);
    LeafAroundNone(g, t, u, key);
    DescribedExactly(g, TreeVars(t), infos, previous, u.out, Key(u), key, env, free, s, m);
  }

  lemma BoundsKey(g: Tables, t: Tree, key: string)
    requires World(g, t) && key in g.loops
    ensures key in g.containing
  {
    hide LoopKey, World;
    WorldTables(g, t);
  }

  /** When nothing is missed, the generated invariant of a loop says exactly that all executed
      iterations are done. */
  lemma MeansIdeal(g: Tables, t: Tree, infos: map<string, Info>, previous: map<string, seq<string>>, key: string,
                   free: bool, s: State, m: Model)
    requires World(g, t) && WellFormedTables(g) && GeneratedInfos(g, infos, previous) && Standard(m)
    requires NothingMissed(g, t, free)
    requires AssumedIn(g, t, s, m)
    ensures MeansIn(g, t, infos, key, free, s, m) <==> Ideal(g, t, key, s, m)
  {
    hide LoopKey, LoopOf, World, Nodes, WellFormedTables, AssumedIn, IsIteration, GeneratedInfos, Standard, BoundsAt,
      IsDescribed, Executed, InPlace, DoneAt, NothingMissed;
    if key in g.loops {
      BoundsKey(g, t, key);
      PlacedAreLoops(g);
      if BoundsAt(g, key, s, m) {
        forall u, env | u in Nodes(t) && u.Leaf? && InPlace(g, u) && IsIteration(g, Key(u), env, s, m)
          ensures IsDescribed(g, infos, u.out, Key(u), key, env, free, s, m) <==> Executed(g, Key(u), key, env, s)
        {
          DescribedIffExecuted(g, t, infos, previous, u, key, env, free, s, m);
        }
      }
    }
  }

  /** `m` reads every invariant call as what the generated invariant says. */
  ghost predicate ReadsIn(g: Tables, t: Tree, infos: map<string, Info>, invs: map<string, Exp>, free: bool, m: Model)
    requires WellFormedTables(g)
  {
    && LoopKeys(Whole(t)) <= invs.Keys
    && (forall key | key in invs :: KeyVars(invs[key]) == {})
    && forall key, s | key in LoopKeys(Whole(t)) && AssumedIn(g, t, s, m) ::
      Holds(invs[key], s, m) <==> MeansIn(g, t, infos, key, free, s, m)
  }

  /** For every loop tree in which nothing is missed, the generated invariants make the returned
      formula and every appended condition valid for "every iteration of every leaf is done". */
  lemma TreeInvariantsDischarge(g: Tables, t: Tree, infos: map<string, Info>, previous: map<string, seq<string>>,
                                invs: map<string, Exp>, q: Exp, free: bool, m: Model)
    requires World(g, t) && WellFormedTables(g) && GeneratedInfos(g, infos, previous) && Standard(m)
    requires NothingMissed(g, t, free)
    requires ReadsIn(g, t, infos, invs, free, m) && KeyVars(q) == {}
    requires forall s | AssumedIn(g, t, s, m) && AllDoneIn(g, t, s, m) :: Holds(q, s, m)
    ensures Wp(Whole(t), q, invs, false).Some?
    ensures AllValid(Wp(Whole(t), q, invs, false).value.conds, AdmissibleIn(g, t, m), m)
    ensures Valid(Wp(Whole(t), q, invs, false).value.pre, AdmissibleIn(g, t, m), m)
  {
    hide LoopKey, LoopOf, WellFormedTables, Nodes, AssumedIn, Changing, AllDoneIn, WellScoped, VarsApart, DistinctLoops,
      Standard, TablesOf, Setup, Holds, Wp, GeneratedInfos, NothingMissed, MeansIn, Ideal, KeyVars, LoopKeys, PlainStmt,
      KeySafe, Whole;
    var adm := AdmissibleIn(g, t, m);
    PartOfWhole(t);
    TreeShape(t, {}, Changing(t));
    TreeAssigns(t);
    ClosedFor(g, t, Whole(t), m);
    forall key, s | key in LoopKeys(Whole(t)) && AssumedIn(g, t, s, m)
      ensures Holds(invs[key], s, m) <==> Ideal(g, t, key, s, m)
    {
      MeansIdeal(g, t, infos, previous, key, free, s, m);
    }
    var post := (s: State) => Holds(q, s, m);
    ConditionsMean(Whole(t), q, post, invs, false, {}, Inv(g, t, m), adm, m);
    TreeConditions(g, t, m);
    Consequence(s => true, s => true, Whole(t), post, s => AllDoneIn(g, t, s, m), Inv(g, t, m), adm, m);
  }

  // ----- where nothing is missed -----

  /** In every block all loops but the last write arrays and hold no further loops. */
  predicate LeavesFirst(t: Tree) {
    t.Node? ==>
      && (forall i | 0 <= i < |t.kids| - 1 :: t.kids[i].Leaf?)
      && forall i | 0 <= i < |t.kids| :: LeavesFirst(t.kids[i])
  }

  lemma {:induction false} LeavesFirstIn(t: Tree, n: Tree)
    requires LeavesFirst(t) && n in Nodes(t)
    ensures LeavesFirst(n)
    decreases t
  {
    if n != t {
      var i :| 0 <= i < |t.kids| && n in Nodes(t.kids[i]);
      LeavesFirstIn(t.kids[i], n);
    }
  }

  /** Nothing is missed in any tree when variables without a range are free, and otherwise in
      these. */
  lemma MissNothing(g: Tables, t: Tree, free: bool)
    requires World(g, t) && WellFormedTables(g) && (free || LeavesFirst(t))
    ensures NothingMissed(g, t, free)
  {
    hide LoopKey, LoopOf, World, Nodes, WellFormedTables, LeavesFirst, EarlierBranch, InPlace, Meet, PathOf;
    PlacedAreLoops(g);
    forall u, key | u in Nodes(t) && u.Leaf? && InPlace(g, u) && key in g.loops && EarlierBranch(g, Key(u), key)
      ensures InView(g, Key(u), key, free)
    {
      MeetsBelowRoot(g, t, Key(u), key);
      if !free { EarlierIsBeside(g, t, u, key); }
    }
  }

  /** Below a node on its path, a loop's path goes on with a kid of the node. */
  lemma KidAt(g: Tables, t: Tree, n: Tree, k: string, d: nat) returns (i: nat)
    requires k in g.loops && k in g.containing && 0 < d < |PathOf(g, k)| && n.Node? && n.kids != []
    requires PathOf(g, k)[d - 1] == LoopOf(n)
    requires World(g, t) && WellFormedTables(g) && n in Nodes(t)
    ensures i < |n.kids| && PathOf(g, k)[d] == LoopOf(n.kids[i])
  {
    hide LoopKey, LoopOf, Flatten, TablesOf, WellFormedTables, IsNesting, WellFormedTree, ProgramTables, Nodes;
    Branch(g, TreeVars(t), k, d);
    var w := PathOf(g, k)[d];
    ParentKnown(g, LoopKey(w));
    assert PathOf(g, k)[..d][d - 1] == LoopOf(n);
    i := LoopIsKid(n, w);
  }

  lemma MeetsBelowRoot(g: Tables, t: Tree, x: string, key: string)
    requires World(g, t) && WellFormedTables(g) && x in g.loops && key in g.loops
    ensures Meet(g, x, key) > 0
  {
    hide LoopKey, LoopOf, World, Nodes, WellFormedTables, PathOf, Shared;
    WorldTables(g, t);
    StartsAtRoot(g, t, x);
    StartsAtRoot(g, t, key);
    SameStart(PathOf(g, key), PathOf(g, x));
  }

  lemma StartsAtRoot(g: Tables, t: Tree, x: string)
    requires World(g, t) && x in g.loops && x in g.containing
    ensures PathOf(g, x)[0] == LoopOf(t)
  {
    hide LoopKey, LoopOf, World, Nodes, PathOf;
    var u := WorldNode(g, t, x);
    RootVar(g, t, u);
  }

  lemma SameStart(p: seq<Stmt>, q: seq<Stmt>)
    requires p != [] && q != [] && p[0] == q[0]
    ensures Shared(p, q) > 0
  {
  }

  lemma EarlierIsBeside(g: Tables, t: Tree, u: Tree, key: string)
    requires World(g, t) && WellFormedTables(g) && LeavesFirst(t) && u in Nodes(t) && u.Leaf? && InPlace(g, u)
    requires key in g.loops
    requires Key(u) in g.loops && EarlierBranch(g, Key(u), key)
    ensures InView(g, Key(u), key, false)
  {
    hide LoopKey, LoopOf, World, Nodes, WellFormedTables, LeavesFirst, StandsBefore, PathOf, Meet;
    WorldTables(g, t);
    MeetsBelowRoot(g, t, Key(u), key);
    var d := Meet(g, Key(u), key);
    var n := CommonNode(g, t, u, key, d);
    var i := KidAt(g, t, n, Key(u), d);
    var j := KidAt(g, t, n, key, d);
    KidsOrdered(g, t, n, i, j);
    LeavesFirstIn(t, n);
    EarlierKidIsLeaf(n, i, j);
    LeafIsLast(g, t, n, i, u, d);
  }

  /** A leaf on the path of a leaf is its last loop. */
  lemma LeafIsLast(g: Tables, t: Tree, n: Tree, i: nat, u: Tree, d: nat)
    requires World(g, t) && WellFormedTables(g) && u in Nodes(t) && u.Leaf? && InPlace(g, u)
    requires n in Nodes(t) && n.Node? && i < |n.kids| && n.kids[i].Leaf?
    requires d < |PathOf(g, Key(u))| && PathOf(g, Key(u))[d] == LoopOf(n.kids[i])
    ensures |PathOf(g, Key(u))| == d + 1
  {
    hide LoopKey, LoopOf, TablesOf, Setup, WellFormedTree, Nodes, WellFormedTables, PathOf;
    KidChanges(t, n, i);
    WorldPlaces(g, t, n.kids[i]);
    LeafInLeaf(g, t, n.kids[i], u);
    var q := PathOf(g, Key(u));
    OnBothPaths(g, TreeVars(t), Key(u), Key(u), d, |q| - 1);
  }

  lemma EarlierKidIsLeaf(n: Tree, i: nat, j: nat)
    requires LeavesFirst(n) && n.Node? && i < j < |n.kids|
    ensures n.kids[i].Leaf?
  {
  }

  /** The innermost loop that two paths share. */
  lemma CommonNode(g: Tables, t: Tree, u: Tree, key: string, d: nat) returns (n: Tree)
    requires World(g, t) && WellFormedTables(g) && u in Nodes(t) && u.Leaf? && InPlace(g, u) && key in g.loops
    requires key in g.containing
    requires d == Meet(g, Key(u), key) && 0 < d < |PathOf(g, Key(u))| && d < |PathOf(g, key)|
    ensures n in Nodes(t) && n.Node? && n.kids != [] && PathOf(g, Key(u))[d - 1] == LoopOf(n) == PathOf(g, key)[d - 1]
  {
    hide LoopKey, LoopOf, World, Nodes, WellFormedTables, PathOf, CurrentUpTo, IntsAround, Shared, IterVar, Setup;
    WorldTables(g, t);
    SharedPart(g, TreeVars(t), Key(u), key, d - 1);
    var w := PathOf(g, key)[d - 1];
    Branch(g, TreeVars(t), key, d - 1);
    n := WorldNode(g, t, LoopKey(w));
    AroundIsNode(g, t, n, key, d);
    NodeHasKids(g, t, n);
  }

  /** A loop with a loop below it on a path is no leaf. */
  lemma AroundIsNode(g: Tables, t: Tree, n: Tree, key: string, d: nat)
    requires World(g, t) && WellFormedTables(g) && n in Nodes(t) && key in g.loops && key in g.containing
    requires 0 < d < |PathOf(g, key)| && PathOf(g, key)[d - 1] == LoopOf(n)
    ensures n.Node?
  {
    hide LoopKey, LoopOf, World, Nodes, WellFormedTables;
    var q := PathOf(g, key);
    assert q[..|q| - 1][d - 1] == LoopOf(n);
    if n.Leaf? { LeafAroundNone(g, t, n, key); }
  }

  /** The whole chain: the generator's tables and invariants exist, and with them every condition
      is valid. */
  lemma TreeDischarge(t: Tree, free: bool, m: Model)
    returns (g: Tables, infos: map<string, Info>, previous: map<string, seq<string>>)
    requires WellFormedTree(t) && (free || LeavesFirst(t)) && Standard(m)
    ensures World(g, t) && WellFormedTables(g) && GeneratedInfos(g, infos, previous)
    ensures forall invs, q | ReadsIn(g, t, infos, invs, free, m) && KeyVars(q) == {}
        && (forall s | AssumedIn(g, t, s, m) && AllDoneIn(g, t, s, m) :: Holds(q, s, m)) ::
      && Wp(Whole(t), q, invs, false).Some?
      && AllValid(Wp(Whole(t), q, invs, false).value.conds, AdmissibleIn(g, t, m), m)
      && Valid(Wp(Whole(t), q, invs, false).value.pre, AdmissibleIn(g, t, m), m)
  {
    hide LoopKey, LoopOf, WellFormedTables, Nodes, AssumedIn, AllDoneIn, WellFormedTree, Standard, TablesOf, Setup,
      Holds, Wp, GeneratedInfos, ReadsIn, KeyVars, Whole, LeavesFirst, Valid, AllValid;
    g := WorldExists(t);
    WorldTables(g, t);
    infos, previous := GeneratedInfosExist(g, TreeVars(t));
    MissNothing(g, t, free);
    forall invs, q | ReadsIn(g, t, infos, invs, free, m) && KeyVars(q) == {}
        && (forall s | AssumedIn(g, t, s, m) && AllDoneIn(g, t, s, m) :: Holds(q, s, m))
      ensures Wp(Whole(t), q, invs, false).Some?
      ensures AllValid(Wp(Whole(t), q, invs, false).value.conds, AdmissibleIn(g, t, m), m)
      ensures Valid(Wp(Whole(t), q, invs, false).value.pre, AdmissibleIn(g, t, m), m)
    {
      TreeInvariantsDischarge(g, t, infos, previous, invs, q, free, m);
    }
  }
}
