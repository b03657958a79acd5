/** The generator's tables of a loop tree, and the shape of its program. */
module TreeTables {
  import opened StencilIr
  import opened VerifyTheorems
  import opened Termination
  import opened Invariant
  import opened Siblings
  import opened SiblingTables
  import opened Nest
  import opened LoopTrees

  // ----- shape of the program -----

  lemma NodeSets(t: Tree)
    ensures t.v in TreeVars(t) && TreeVars(t) <= Changing(t) && Outs(t) <= Changing(t)
    ensures t.Leaf? ==> TreeVars(t) == {t.v} && Outs(t) == {t.out}
    ensures t.Node? ==> forall i | 0 <= i < |t.kids| ::
      TreeVars(t.kids[i]) <= TreeVars(t) && Outs(t.kids[i]) <= Outs(t) && Changing(t.kids[i]) <= Changing(t)
    ensures t.Node? ==>
      forall x | x in TreeVars(t) && x != t.v :: exists i | 0 <= i < |t.kids| :: x in TreeVars(t.kids[i])
    ensures t.Node? ==> forall x | x in Outs(t) :: exists i | 0 <= i < |t.kids| :: x in Outs(t.kids[i])
  {
    assert t in Nodes(t);
    if t.Node? {
      forall i | 0 <= i < |t.kids| ensures Nodes(t.kids[i]) <= Nodes(t) { KidIn(t, i); }
      forall x | x in TreeVars(t) && x != t.v ensures exists i | 0 <= i < |t.kids| :: x in TreeVars(t.kids[i]) {
        var u :| u in Nodes(t) && u.v == x;
        var i :| 0 <= i < |t.kids| && u in Nodes(t.kids[i]);
        assert x in TreeVars(t.kids[i]);
      }
      forall x | x in Outs(t) ensures exists i | 0 <= i < |t.kids| :: x in Outs(t.kids[i]) {
        var u :| u in Nodes(t) && u.Leaf? && u.out == x;
        var i :| 0 <= i < |t.kids| && u in Nodes(t.kids[i]);
        assert x in Outs(t.kids[i]);
      }
    }
  }

  lemma {:induction false} TreeAssigns(t: Tree)
    ensures Assigned(Whole(t)) == Changing(t) && Assigned(LoopOf(t)) == Changing(t)
    decreases t
  {
    hide LoopKey, LoopOf, Changing, KidsStmt;
    InnerAssigns(t);
    if t.Node? && t.kids != [] {
      forall i | 0 <= i < |t.kids| ensures Assigned(Whole(t.kids[i])) == Changing(t.kids[i]) { TreeAssigns(t.kids[i]); }
      KidsAssign(t, |t.kids|);
    }
    ChangingIs(t);
  }

  lemma InnerAssigns(t: Tree)
    ensures Assigned(LoopOf(t)) == Assigned(Inner(t)) + {t.v} == Assigned(Whole(t))
    ensures t.Leaf? ==> Assigned(Inner(t)) == {t.out}
    ensures t.Node? ==> Assigned(Inner(t)) == if t.kids == [] then {} else Assigned(KidsStmt(t, |t.kids|))
  {
    hide KidsStmt;
    assert Assigned(LoopOf(t).body) == Assigned(Inner(t)) + Assigned(Incr(t.v));
  }

  lemma ChangingIs(t: Tree)
    ensures t.Leaf? ==> Changing(t) == {t.v, t.out}
    ensures t.Node? ==>
      forall x :: x in Changing(t) <==> x == t.v || exists i | 0 <= i < |t.kids| :: x in Changing(t.kids[i])
  {
    hide TreeVars, Outs;
    NodeSets(t);
  }

  /** Nothing inside a loop assigns its variable. */
  lemma OwnVarKept(t: Tree)
    requires VarsApart(t) && TreeVars(t) !! Outs(t)
    ensures t.v !in Assigned(Inner(t))
  {
    hide KidsStmt, TreeVars, Outs;
    NodeSets(t);
    InnerAssigns(t);
    if t.Node? && t.kids != [] {
      forall i | 0 <= i < |t.kids| ensures Assigned(Whole(t.kids[i])) == Changing(t.kids[i]) { TreeAssigns(t.kids[i]); }
      KidsAssign(t, |t.kids|);
    }
  }

  lemma {:induction false} KidsAssign(t: Tree, n: nat)
    requires t.Node? && 0 < n <= |t.kids|
    requires forall i | 0 <= i < n :: Assigned(Whole(t.kids[i])) == Changing(t.kids[i])
    ensures forall x :: x in Assigned(KidsStmt(t, n)) <==> exists i | 0 <= i < n :: x in Changing(t.kids[i])
  {
    hide LoopOf, Changing;
    var last := t.kids[n - 1];
    assert Assigned(Whole(last)) == {last.v} + Assigned(LoopOf(last));
    if n > 1 {
      KidsAssign(t, n - 1);
      assert Assigned(KidsStmt(t, n)) == Assigned(KidsStmt(t, n - 1)) + {last.v} + Assigned(LoopOf(last));
    } else {
      assert KidsStmt(t, n) == Whole(last);
    }
  }

  /** What every part of a well-formed tree inherits. */
  ghost predicate Part(t: Tree, outer: set<string>, changing: set<string>) {
    && WellScoped(t, outer, changing) && VarsApart(t)
    && Changing(t) <= changing && TreeVars(t) !! Outs(t)
  }

  lemma PartOfPart(t: Tree, outer: set<string>, changing: set<string>, i: nat)
    requires Part(t, outer, changing) && t.Node? && i < |t.kids|
    ensures Part(t.kids[i], outer + {t.v}, changing)
  {
    hide TreeVars, Outs, Changing;
    NodeSets(t);
  }

  lemma PartOfWhole(t: Tree)
    requires WellFormedTree(t)
    ensures Part(t, {}, Changing(t))
  {
    hide WellScoped, VarsApart, DistinctLoops, Changing, TreeVars, Outs;
  }

  /** The program is plain, pends no assigned variable in a key, and counts. */
  lemma {:induction false} TreeShape(t: Tree, outer: set<string>, changing: set<string>)
    requires Part(t, outer, changing)
    ensures PlainStmt(Whole(t)) && KeySafe(Whole(t), {}) && Counting(Whole(t))
    ensures PlainStmt(LoopOf(t)) && KeySafe(LoopOf(t), {}) && Counting(LoopOf(t))
    decreases t
  {
    hide KidsStmt, Part, WellScoped, VarsApart, Steady, Changing;
    LoopShape(t, outer, changing);
    if t.Leaf? {
      LeafShape(t, outer, changing);
    } else {
      HasKids(t, outer, changing);
      forall i | 0 <= i < |t.kids|
        ensures PlainStmt(Whole(t.kids[i])) && KeySafe(Whole(t.kids[i]), {}) && Counting(Whole(t.kids[i]))
        ensures PlainStmt(LoopOf(t.kids[i])) && KeySafe(LoopOf(t.kids[i]), {}) && Counting(LoopOf(t.kids[i]))
      {
        PartOfPart(t, outer, changing, i);
        TreeShape(t.kids[i], outer + {t.v}, changing);
      }
      KidsShape(t, |t.kids|);
    }
  }

  lemma HasKids(t: Tree, outer: set<string>, changing: set<string>)
    requires Part(t, outer, changing) && t.Node?
    ensures t.kids != []
  {
    hide Steady;
  }

  lemma LeafShape(t: Tree, outer: set<string>, changing: set<string>)
    requires Part(t, outer, changing) && t.Leaf?
    ensures PlainStmt(Inner(t)) && KeySafe(Inner(t), {}) && Counting(Inner(t))
  {
    hide Changing;
    assert Steady(t.idx, changing, outer + {t.v}) && Steady(t.rhs, changing, outer + {t.v});
  }

  /** A loop inherits from what stands in it. */
  lemma LoopShape(t: Tree, outer: set<string>, changing: set<string>)
    requires Part(t, outer, changing)
    ensures PlainStmt(Inner(t)) && KeySafe(Inner(t), {}) && Counting(Inner(t)) ==>
      && PlainStmt(Whole(t)) && KeySafe(Whole(t), {}) && Counting(Whole(t))
      && PlainStmt(LoopOf(t)) && KeySafe(LoopOf(t), {}) && Counting(LoopOf(t))
  {
    hide KidsStmt, Inner, VarsApart, TreeVars, Outs, Changing;
    NodeSets(t);
    OwnVarKept(t);
    TreeAssigns(t);
    IncrShape(t.v);
    BoundsSteady(t, outer, changing);
    var body := LoopOf(t).body;
    assert Assigned(body) == Assigned(LoopOf(t));
    if PlainStmt(Inner(t)) && KeySafe(Inner(t), {}) && Counting(Inner(t)) {
      assert PlainStmt(body) && KeySafe(body, {}) && Plain(Test(t));
      assert PlainStmt(LoopOf(t)) && KeySafe(LoopOf(t), {}) && PlainStmt(Start(t)) && KeySafe(Start(t), {});
    }
  }

  lemma BoundsSteady(t: Tree, outer: set<string>, changing: set<string>)
    requires Part(t, outer, changing)
    ensures Plain(t.lo) && Plain(t.hi) && Vars(t.lo) !! changing && Vars(t.hi) !! changing && Changing(t) <= changing
  {
    hide Changing, Vars, Plain;
    forall x | x in changing ensures x !in Vars(t.lo) && x !in Vars(t.hi) {
      assert x in Vars(t.lo) ==> x in Vars(t.lo) * changing;
      assert x in Vars(t.hi) ==> x in Vars(t.hi) * changing;
    }
  }

  lemma {:induction false} KidsShape(t: Tree, n: nat)
    requires t.Node? && 0 < n <= |t.kids|
    requires forall i | 0 <= i < n ::
      && PlainStmt(Whole(t.kids[i])) && KeySafe(Whole(t.kids[i]), {}) && Counting(Whole(t.kids[i]))
      && PlainStmt(LoopOf(t.kids[i])) && KeySafe(LoopOf(t.kids[i]), {}) && Counting(LoopOf(t.kids[i]))
    ensures PlainStmt(KidsStmt(t, n)) && KeySafe(KidsStmt(t, n), {}) && Counting(KidsStmt(t, n))
  {
    hide LoopOf;
    if n > 1 {
      KidsShape(t, n - 1);
      assert PlainStmt(Start(t.kids[n - 1]));
    }
  }

  // ----- bounds -----

  lemma FindsPair(c: Stmt, x: string)
    requires c.Seq?
    ensures FindInit(c, x) == if FindInit(c.last, x).Some? then FindInit(c.last, x) else FindInit(c.init, x)
    ensures FindMax(c, x) == if FindMax(c.last, x).Some? then FindMax(c.last, x) else FindMax(c.init, x)
  {
  }

  /** A loop finds what stands in it, and its own bound. */
  lemma FindsLoop(t: Tree, x: string)
    ensures FindInit(LoopOf(t), x) == FindInit(Inner(t), x)
    ensures FindMax(LoopOf(t), x) ==
      if FindMax(Inner(t), x).Some? then FindMax(Inner(t), x) else if x == t.v then Some(t.hi) else None
  {
    hide Inner;
    var body := LoopOf(t).body;
    FindsPair(body, x);
    assert t.v in Vars(Incr(t.v).rval);
  }

  lemma FindsStart(t: Tree, x: string)
    requires t.v !in Vars(t.lo)
    ensures FindInit(Start(t), x) == (if x == t.v then Some(t.lo) else None) && FindMax(Start(t), x) == None
  {
  }

  /** The bounds of the loop with variable `x` inside a tree. */
  ghost predicate FindsIn(c: Stmt, t: Tree, x: string) {
    && (x !in TreeVars(t) ==> FindInit(c, x) == None && FindMax(c, x) == None)
    && forall u | u in Nodes(t) && u.v == x :: FindInit(c, x) == Some(u.lo) && FindMax(c, x) == Some(u.hi)
  }

  /** What is found in a loop with its initialisation, and without. */
  ghost predicate LoopFinds(t: Tree, x: string) {
    && FindsIn(Whole(t), t, x) && t.v !in Vars(t.lo)
    && FindInit(LoopOf(t), x) == (if x == t.v then None else FindInit(Whole(t), x))
    && FindMax(LoopOf(t), x) == FindMax(Whole(t), x)
  }

  lemma {:induction false} TreeFinds(t: Tree, outer: set<string>, changing: set<string>, x: string)
    requires Part(t, outer, changing)
    ensures LoopFinds(t, x)
    decreases t
  {
    hide KidsStmt, Part, LoopOf, FindInit, FindMax, LoopFinds, Changing, TreeVars, Outs;
    if t.Leaf? {
      LeafFinds(t, outer, changing, x);
    } else {
      HasKids(t, outer, changing);
      forall i | 0 <= i < |t.kids| ensures LoopFinds(t.kids[i], x) {
        PartOfPart(t, outer, changing, i);
        TreeFinds(t.kids[i], outer + {t.v}, changing, x);
      }
      NodeFinds(t, outer, changing, x);
    }
  }

  lemma LeafFinds(t: Tree, outer: set<string>, changing: set<string>, x: string)
    requires Part(t, outer, changing) && t.Leaf?
    ensures LoopFinds(t, x)
  {
    hide Part, LoopOf, FindInit, FindMax, Changing;
    BoundsSteady(t, outer, changing);
    NodeSets(t);
    FindsPair(Whole(t), x);
    FindsStart(t, x);
    FindsLoop(t, x);
    assert FindInit(Inner(t), x) == None && FindMax(Inner(t), x) == None by { FindsNoLoop(Inner(t), x); }
  }

  lemma FindsNoLoop(c: Stmt, x: string)
    requires c.AssignArr?
    ensures FindInit(c, x) == None && FindMax(c, x) == None
  {
  }

  lemma NodeFinds(t: Tree, outer: set<string>, changing: set<string>, x: string)
    requires Part(t, outer, changing) && t.Node? && t.kids != []
    requires forall i | 0 <= i < |t.kids| :: LoopFinds(t.kids[i], x)
    ensures LoopFinds(t, x)
  {
    hide Part, LoopOf, FindInit, FindMax, Changing, LoopFinds, KidsStmt, TreeVars, Outs, FindsIn;
    Apart(t, outer, changing);
    KidsFind(t, |t.kids|, x);
    NodeCase(t, x);
  }

  lemma Apart(t: Tree, outer: set<string>, changing: set<string>)
    requires Part(t, outer, changing) && t.Node?
    ensures forall i | 0 <= i < |t.kids| :: t.v !in TreeVars(t.kids[i])
    ensures forall i, j | 0 <= i < j < |t.kids| :: TreeVars(t.kids[i]) !! TreeVars(t.kids[j])
    ensures t.v !in Vars(t.lo)
  {
    hide WellScoped, TreeVars, Outs, Changing;
    NodeSets(t);
    BoundsSteady(t, outer, changing);
  }

  lemma KidVars(t: Tree, i: nat)
    requires t.Node? && i < |t.kids|
    ensures t.kids[i].v in TreeVars(t.kids[i])
  {
    NodeSets(t.kids[i]);
  }

  /** A kid's variables are found in its own part of the block. */
  lemma {:induction false} KidsFind(t: Tree, n: nat, x: string)
    requires t.Node? && 0 < n <= |t.kids| && forall i | 0 <= i < n :: LoopFinds(t.kids[i], x)
    requires forall i, j | 0 <= i < j < n :: TreeVars(t.kids[i]) !! TreeVars(t.kids[j])
    ensures forall i | 0 <= i < n && x in TreeVars(t.kids[i]) ::
      && FindInit(KidsStmt(t, n), x) == FindInit(Whole(t.kids[i]), x)
      && FindMax(KidsStmt(t, n), x) == FindMax(Whole(t.kids[i]), x)
    ensures (forall i | 0 <= i < n :: x !in TreeVars(t.kids[i]))
      ==> FindInit(KidsStmt(t, n), x) == None && FindMax(KidsStmt(t, n), x) == None
  {
    hide LoopOf, FindInit, FindMax, TreeVars, FindsIn;
    var last := t.kids[n - 1];
    KidVars(t, n - 1);
    SomeOrNone(last, x);
    FindsPair(Whole(last), x);
    FindsStart(last, x);
    if n > 1 {
      KidsFind(t, n - 1, x);
      FindsPair(KidsStmt(t, n), x);
      FindsPair(KidsStmt(t, n).init, x);
    } else {
      assert KidsStmt(t, n) == Whole(last);
    }
  }

  lemma SomeOrNone(t: Tree, x: string)
    requires FindsIn(Whole(t), t, x)
    ensures x in TreeVars(t) ==> FindInit(Whole(t), x).Some? && FindMax(Whole(t), x).Some?
    ensures x !in TreeVars(t) ==> FindInit(Whole(t), x) == None && FindMax(Whole(t), x) == None
  {
    hide LoopOf, FindInit, FindMax;
  }

  lemma NodeCase(t: Tree, x: string)
    requires t.Node? && t.kids != [] && forall i | 0 <= i < |t.kids| :: LoopFinds(t.kids[i], x)
    requires (forall i | 0 <= i < |t.kids| :: t.v !in TreeVars(t.kids[i])) && t.v !in Vars(t.lo)
    requires var c := Inner(t);
      && (forall i | 0 <= i < |t.kids| && x in TreeVars(t.kids[i]) ::
            FindInit(c, x) == FindInit(Whole(t.kids[i]), x) && FindMax(c, x) == FindMax(Whole(t.kids[i]), x))
      && ((forall i | 0 <= i < |t.kids| :: x !in TreeVars(t.kids[i]))
        ==> FindInit(c, x) == None && FindMax(c, x) == None)
    ensures LoopFinds(t, x)
  {
    hide LoopOf, FindInit, FindMax, TreeVars, Inner;
    FindsPair(Whole(t), x);
    FindsStart(t, x);
    FindsLoop(t, x);
    NodeSets(t);
    forall u | u in Nodes(t) && u.v == x
      ensures FindInit(Whole(t), x) == Some(u.lo) && FindMax(Whole(t), x) == Some(u.hi)
    {
      if u != t {
        var i :| 0 <= i < |t.kids| && u in Nodes(t.kids[i]);
        InVars(t.kids[i], u);
      }
    }
  }

  lemma InVars(t: Tree, u: Tree)
    requires u in Nodes(t)
    ensures u.v in TreeVars(t)
  {
  }

  // ----- places -----

  /** The loop of `u` is in the tables under its key. */
  ghost predicate InPlace(g: Tables, u: Tree) {
    Key(u) in g.loops && Key(u) in g.containing && g.loops[Key(u)] == LoopOf(u)
  }

  lemma PlaceKid(g: Tables, t: Tree, i: nat)
    requires ProgramTables(g) && InPlace(g, t) && t.Node? && i < |t.kids|
    ensures InPlace(g, t.kids[i]) && PathOf(g, Key(t.kids[i])) == PathOf(g, Key(t)) + [LoopOf(t.kids[i])]
  {
    hide LoopKey, LoopOf, Flatten, KidsStmt, ProgramTables;
    BodyBlock(t);
    KidsBlock(t, |t.kids|);
    var block := Flatten(KidsStmt(t, |t.kids|));
    assert block[2 * i + 1] == LoopOf(t.kids[i]);
    InBody(g, LoopOf(t), LoopOf(t.kids[i]));
  }

  lemma PlaceRoot(g: Tables, t: Tree)
    requires ProgramTables(g) && g.program == Whole(t)
    ensures InPlace(g, t) && g.containing[Key(t)] == []
  {
    hide LoopKey, LoopOf, LoopsByKey, Containing, DistinctLoops;
    assert Flatten(LoopOf(t)) == [LoopOf(t)];
    assert Flatten(Whole(t)) == Flatten(Start(t)) + [LoopOf(t)];
    AtTheTop(Whole(t), LoopOf(t));
  }

  lemma {:induction false} PlaceAll(g: Tables, t: Tree, u: Tree)
    requires ProgramTables(g) && InPlace(g, t) && u in Nodes(t)
    ensures InPlace(g, u) && PathOf(g, Key(t)) <= PathOf(g, Key(u))
    decreases t
  {
    hide LoopKey, LoopOf, ProgramTables;
    if u != t {
      var i :| 0 <= i < |t.kids| && u in Nodes(t.kids[i]);
      PlaceKid(g, t, i);
      PlaceAll(g, t.kids[i], u);
    }
  }

  /** The loops of the program are those of the tree. */
  lemma {:induction false} KeyIsNode(t: Tree, k: string) returns (u: Tree)
    requires k in LoopKeys(LoopOf(t))
    ensures u in Nodes(t) && Key(u) == k
    decreases t
  {
    hide LoopKey, LoopOf, KidsStmt;
    LoopKeysIn(t);
    u := t;
    if k != Key(t) {
      KidsKeys(t, |t.kids|);
      var i :| 0 <= i < |t.kids| && k in LoopKeys(LoopOf(t.kids[i]));
      u := KeyIsNode(t.kids[i], k);
      KidIn(t, i);
    }
  }

  lemma LoopKeysIn(t: Tree)
    ensures forall k | k in LoopKeys(LoopOf(t)) && k != Key(t) ::
      t.Node? && t.kids != [] && k in LoopKeys(KidsStmt(t, |t.kids|))
    ensures LoopKeys(Whole(t)) == LoopKeys(LoopOf(t))
  {
    hide LoopKey, KidsStmt;
    assert LoopKeys(LoopOf(t).body) == LoopKeys(Inner(t)) + LoopKeys(Incr(t.v));
  }

  lemma {:induction false} VarsUnique(t: Tree, u: Tree, w: Tree)
    requires VarsApart(t) && u in Nodes(t) && w in Nodes(t) && u.v == w.v
    ensures u == w
    decreases t
  {
    if u != t {
      var i :| 0 <= i < |t.kids| && u in Nodes(t.kids[i]);
      InVars(t.kids[i], u);
      if w != t {
        var j :| 0 <= j < |t.kids| && w in Nodes(t.kids[j]);
        InVars(t.kids[j], w);
        if i == j { VarsUnique(t.kids[i], u, w); }
      }
    } else if w != t {
      var j :| 0 <= j < |t.kids| && w in Nodes(t.kids[j]);
      InVars(t.kids[j], w);
    }
  }

  // ----- the tables of a tree -----

  /** The generator's tables of the program of a well-formed tree. */
  ghost predicate World(g: Tables, t: Tree) {
    WellFormedTree(t) && TablesOf(g, Whole(t), TreeVars(t)) && Setup(g, TreeVars(t))
  }

  lemma WorldPlaces(g: Tables, t: Tree, u: Tree)
    requires World(g, t) && u in Nodes(t)
    ensures ProgramTables(g) && g.program == Whole(t) && InPlace(g, t) && g.containing[Key(t)] == []
    ensures InPlace(g, u) && PathOf(g, Key(t)) <= PathOf(g, Key(u)) && IterVar(LoopOf(u)) == u.v
  {
    hide LoopKey, LoopOf, WellFormedTables, IsNesting, WellFormedTree, FindInit, FindMax, LoopsByKey, Containing,
      DistinctLoops;
    PlaceRoot(g, t);
    PlaceAll(g, t, u);
  }

  lemma WorldBounds(g: Tables, t: Tree, u: Tree)
    requires World(g, t) && u in Nodes(t)
    ensures u.v in g.nesting && u.v in g.mins && u.v in g.maxs && g.mins[u.v] == u.lo && g.maxs[u.v] == u.hi
  {
    hide LoopKey, LoopOf, WellFormedTables, FindInit, FindMax, LoopsByKey, Containing, ProgramTables, Part;
    PartOfWhole(t);
    TreeFinds(t, {}, Changing(t), u.v);
    InVars(t, u);
  }

  /** Every loop of the tables is one of the tree's. */
  lemma WorldNode(g: Tables, t: Tree, k: string) returns (u: Tree)
    requires World(g, t) && k in g.loops
    ensures u in Nodes(t) && Key(u) == k && InPlace(g, u)
  {
    hide LoopKey, LoopOf, WellFormedTables, IsNesting, FindInit, FindMax, WellScoped, VarsApart;
    LoopTables(Whole(t), []);
    LoopKeysIn(t);
    u := KeyIsNode(t, k);
    WorldPlaces(g, t, u);
  }

  lemma LoopVarsOfTree(t: Tree)
    requires WellFormedTree(t)
    ensures LoopVarsOf(LoopsByKey(Whole(t))) == TreeVars(t) && DistinctVars(Whole(t))
  {
    hide LoopKey, LoopOf, WellScoped, VarsApart, DistinctLoops, LoopsByKey, Containing;
    var c := Whole(t);
    var loops := LoopsByKey(c);
    LoopTables(c, []);
    LoopKeysIn(t);
    PartOfWhole(t);
    forall k | k in loops ensures exists u | u in Nodes(t) :: Key(u) == k && loops[k] == LoopOf(u) {
      var u := KeyIsNode(t, k);
      TreeLoop(t, u);
    }
    forall u | u in Nodes(t) ensures Key(u) in loops && loops[Key(u)] == LoopOf(u) { TreeLoop(t, u); }
    forall k, l | k in loops && l in loops && k != l ensures IterVar(loops[k]) != IterVar(loops[l]) {
      var u :| u in Nodes(t) && Key(u) == k && loops[k] == LoopOf(u);
      var w :| w in Nodes(t) && Key(w) == l && loops[l] == LoopOf(w);
      if u.v == w.v { VarsUnique(t, u, w); }
    }
    forall x | x in TreeVars(t) ensures x in LoopVarsOf(loops) {
      var u :| u in Nodes(t) && u.v == x;
      assert IterVar(loops[Key(u)]) == x;
    }
  }

  /** A loop of the tree under its key. */
  lemma TreeLoop(t: Tree, u: Tree)
    requires DistinctLoops(Whole(t)) && u in Nodes(t)
    ensures Key(u) in LoopsByKey(Whole(t)) && LoopsByKey(Whole(t))[Key(u)] == LoopOf(u)
  {
    hide LoopKey, LoopOf, DistinctLoops;
    var c := Whole(t);
    var g := Tables(LoopsByKey(c), Containing(c, []), map[], map[], map[], c);
    PlaceRoot(g, t);
    PlaceAll(g, t, u);
  }

  lemma WorldExists(t: Tree) returns (g: Tables)
    requires WellFormedTree(t)
    ensures World(g, t)
  {
    hide LoopKey, LoopOf, WellScoped, VarsApart, DistinctLoops, LoopsByKey, Containing, FindInit, FindMax,
      WellFormedTables, IsNesting, Part;
    var c, vs := Whole(t), TreeVars(t);
    LoopVarsOfTree(t);
    PartOfWhole(t);
    forall v | v in vs ensures FindInit(c, v).Some? && FindMax(c, v).Some? {
      TreeFinds(t, {}, Changing(t), v);
      var u :| u in Nodes(t) && u.v == v;
    }
    g := SetupExists(c, map v | v in vs :: FindInit(c, v).value, map v | v in vs :: FindMax(c, v).value);
  }

  // ----- scopes -----

  function PathVarSet(p: seq<Stmt>): set<string> { set b | 0 <= b < |p| :: IterVar(p[b]) }

  lemma {:induction false} ScopeAt(g: Tables, t: Tree, outer: set<string>, changing: set<string>, u: Tree)
    requires ProgramTables(g) && InPlace(g, t) && WellScoped(t, outer, changing) && u in Nodes(t)
    requires outer == PathVarSet(g.containing[Key(t)])
    ensures InPlace(g, u) && WellScoped(u, PathVarSet(g.containing[Key(u)]), changing)
    decreases t
  {
    hide LoopKey, LoopOf, ProgramTables, Steady;
    if u != t {
      var i :| 0 <= i < |t.kids| && u in Nodes(t.kids[i]);
      PlaceKid(g, t, i);
      OneMoreVar(g, t, t.kids[i]);
      ScopeAt(g, t.kids[i], outer + {t.v}, changing, u);
    }
  }

  lemma OneMoreVar(g: Tables, t: Tree, kid: Tree)
    requires InPlace(g, t) && InPlace(g, kid) && PathOf(g, Key(kid)) == PathOf(g, Key(t)) + [LoopOf(kid)]
    ensures g.containing[Key(kid)] == PathOf(g, Key(t))
    ensures PathVarSet(g.containing[Key(kid)]) == PathVarSet(g.containing[Key(t)]) + {t.v}
  {
    hide LoopKey, LoopOf;
    var p, q := g.containing[Key(t)], g.containing[Key(kid)];
    assert q == p + [LoopOf(t)];
    assert IterVar(LoopOf(t)) == t.v;
    forall x | x in PathVarSet(p) ensures x in PathVarSet(q) {
      var b :| 0 <= b < |p| && IterVar(p[b]) == x;
      assert q[b] == p[b];
    }
    assert q[|p|] == LoopOf(t);
  }

  /** A leaf's index and right-hand side mention, of what the program changes, only the variables
      of the loops on its path. */
  lemma WorldScope(g: Tables, t: Tree, u: Tree)
    requires World(g, t) && u in Nodes(t) && u.Leaf?
    ensures InPlace(g, u) && Plain(u.idx) && NoArrays(u.idx) && Plain(u.rhs)
    ensures Vars(u.idx) * Changing(t) <= PathVarSet(PathOf(g, Key(u)))
    ensures Vars(u.rhs) * Changing(t) <= PathVarSet(PathOf(g, Key(u)))
    ensures u.out in Outs(t) && u.out !in TreeVars(t)
  {
    hide LoopKey, LoopOf, WellFormedTables, IsNesting, FindInit, FindMax, VarsApart, LoopsByKey, Containing,
      DistinctLoops;
    PlaceRoot(g, t);
    assert PathVarSet([]) == {};
    ScopeAt(g, t, {}, Changing(t), u);
    var p := g.containing[Key(u)];
    assert PathOf(g, Key(u)) == p + [LoopOf(u)];
    forall x | x in PathVarSet(p) + {u.v} ensures x in PathVarSet(PathOf(g, Key(u))) {
      if x in PathVarSet(p) {
        var b :| 0 <= b < |p| && IterVar(p[b]) == x;
        assert PathOf(g, Key(u))[b] == p[b];
      } else {
        assert PathOf(g, Key(u))[|p|] == LoopOf(u) && IterVar(LoopOf(u)) == u.v;
      }
    }
  }
}
