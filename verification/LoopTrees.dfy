/** Loop nests of any shape: every loop either writes one array or holds further loops, one after
    the other. */
module LoopTrees {
  import opened StencilIr
  import opened Termination
  import opened Invariant
  import opened Nest

  datatype Tree =
    | Leaf(v: string, lo: Exp, hi: Exp, out: string, idx: Exp, rhs: Exp)
    | Node(v: string, lo: Exp, hi: Exp, kids: seq<Tree>)

  function Start(t: Tree): Stmt { AssignVar(t.v, t.lo) }

  function Test(t: Tree): Exp { Bin(Var(t.v), Lt, t.hi) }

  /** `while (v < hi) { ..; v = v + 1 }` */
  function LoopOf(t: Tree): (c: Stmt)
    ensures c.While? && c.iterVar == t.v && c.test == Test(t)
    decreases t, 1
  {
    While(t.v, Test(t), Seq(Inner(t), Incr(t.v)))
  }

  /** What stands in the loop in front of the increment. */
  function Inner(t: Tree): Stmt
    decreases t, 0
  {
    if t.Leaf? then AssignArr(t.out, t.idx, t.rhs)
    else if t.kids == [] then Just(Num(0))
    else KidsStmt(t, |t.kids|)
  }

  /** `v = lo; while .. { .. }` */
  function Whole(t: Tree): Stmt
    decreases t, 2
  {
    Seq(Start(t), LoopOf(t))
  }

  /** The first `n` loops inside a node, with their initialisations, as one block. */
  function KidsStmt(t: Tree, n: nat): Stmt
    requires t.Node? && 0 < n <= |t.kids|
    decreases t, -1, n
  {
    if n == 1 then Whole(t.kids[0])
    else Seq(Seq(KidsStmt(t, n - 1), Start(t.kids[n - 1])), LoopOf(t.kids[n - 1]))
  }

  function Key(t: Tree): string { LoopKey(LoopOf(t)) }

  // ----- parts of a tree -----

  function Nodes(t: Tree): set<Tree> {
    {t} + if t.Leaf? then {} else set i, u | 0 <= i < |t.kids| && u in Nodes(t.kids[i]) :: u
  }

  function TreeVars(t: Tree): set<string> { set u | u in Nodes(t) :: u.v }

  function Outs(t: Tree): set<string> { set u | u in Nodes(t) && u.Leaf? :: u.out }

  function Changing(t: Tree): set<string> { TreeVars(t) + Outs(t) }

  /** Expressions the program does not change, but for the given variables. */
  predicate Steady(e: Exp, changing: set<string>, vars: set<string>) { Plain(e) && Vars(e) * changing <= vars }

  /** Bounds that nothing changes; an index without array reads and a right-hand side that mention
      no other loop's variable and no output. */
  predicate WellScoped(t: Tree, outer: set<string>, changing: set<string>) {
    && Steady(t.lo, changing, {}) && Steady(t.hi, changing, {})
    && match t
       case Leaf(v, _, _, _, idx, rhs) =>
         Steady(idx, changing, outer + {v}) && NoArrays(idx) && Steady(rhs, changing, outer + {v})
       case Node(v, _, _, kids) =>
         kids != [] && forall i | 0 <= i < |kids| :: WellScoped(kids[i], outer + {v}, changing)
  }

  /** Every loop has its own variable. */
  predicate VarsApart(t: Tree) {
    t.Node? ==>
      && (forall i | 0 <= i < |t.kids| :: VarsApart(t.kids[i]) && t.v !in TreeVars(t.kids[i]))
      && (forall i, j | 0 <= i < j < |t.kids| :: TreeVars(t.kids[i]) !! TreeVars(t.kids[j]))
  }

  ghost predicate WellFormedTree(t: Tree) {
    && WellScoped(t, {}, Changing(t)) && VarsApart(t) && DistinctLoops(Whole(t))
    && TreeVars(t) !! Outs(t)
    && (forall u, w | u in Nodes(t) && w in Nodes(t) && u.Leaf? && w.Leaf? && u.out == w.out :: u == w)
  }

  lemma {:induction false} NodesNest(t: Tree, u: Tree)
    requires u in Nodes(t)
    ensures Nodes(u) <= Nodes(t)
  {
    if u != t {
      var i :| 0 <= i < |t.kids| && u in Nodes(t.kids[i]);
      NodesNest(t.kids[i], u);
      KidIn(t, i);
    }
  }

  lemma KidIn(t: Tree, i: nat)
    requires t.Node? && i < |t.kids|
    ensures t.kids[i] in Nodes(t) && Nodes(t.kids[i]) <= Nodes(t)
  {
    assert t.kids[i] in Nodes(t.kids[i]);
  }

  // ----- the block of a node -----

  /** The block inside a node: initialisation and loop of every kid, in order. */
  lemma {:induction false} KidsBlock(t: Tree, n: nat)
    requires t.Node? && 0 < n <= |t.kids|
    ensures var block := Flatten(KidsStmt(t, n));
      && |block| == 2 * n
      && forall i | 0 <= i < n :: block[2 * i] == Start(t.kids[i]) && block[2 * i + 1] == LoopOf(t.kids[i])
  {
    hide LoopOf, KidsStmt, Flatten;
    KidsBlockStep(t, n);
    if n > 1 { KidsBlock(t, n - 1); }
  }

  lemma KidsBlockStep(t: Tree, n: nat)
    requires t.Node? && 0 < n <= |t.kids|
    ensures Flatten(KidsStmt(t, n))
      == (if n == 1 then [] else Flatten(KidsStmt(t, n - 1))) + [Start(t.kids[n - 1]), LoopOf(t.kids[n - 1])]
  {
    hide LoopOf;
    var last := t.kids[n - 1];
    assert Flatten(Start(last)) == [Start(last)] && Flatten(LoopOf(last)) == [LoopOf(last)];
    assert n == 1 ==> KidsStmt(t, n) == Whole(last);
  }

  lemma BodyBlock(t: Tree)
    ensures t.Leaf? ==> Flatten(LoopOf(t).body) == [Inner(t), Incr(t.v)] && Inner(t).AssignArr?
    ensures t.Node? && t.kids != [] ==> Flatten(LoopOf(t).body) == Flatten(KidsStmt(t, |t.kids|)) + [Incr(t.v)]
  {
    hide KidsStmt;
    var body := Seq(Inner(t), Incr(t.v));
    assert Flatten(Incr(t.v)) == [Incr(t.v)];
  }

  lemma {:induction false} KidsKeys(t: Tree, n: nat)
    requires t.Node? && 0 < n <= |t.kids|
    ensures forall k :: k in LoopKeys(KidsStmt(t, n)) <==> exists i | 0 <= i < n :: k in LoopKeys(LoopOf(t.kids[i]))
  {
    hide LoopKey, LoopOf, LoopKeys, KidsStmt, DistinctLoops;
    KidsStep(t, n);
    if n > 1 { KidsKeys(t, n - 1); }
  }

  lemma KidsStep(t: Tree, n: nat)
    requires t.Node? && 0 < n <= |t.kids|
    ensures var last := LoopOf(t.kids[n - 1]);
      if n == 1 then
        LoopKeys(KidsStmt(t, n)) == LoopKeys(last) && (DistinctLoops(KidsStmt(t, n)) <==> DistinctLoops(last))
      else
        && LoopKeys(KidsStmt(t, n)) == LoopKeys(KidsStmt(t, n - 1)) + LoopKeys(last)
        && (DistinctLoops(KidsStmt(t, n)) <==>
              && DistinctLoops(KidsStmt(t, n - 1)) && DistinctLoops(last)
              && LoopKeys(KidsStmt(t, n - 1)) !! LoopKeys(last))
  {
    hide LoopKey, LoopOf;
    assert LoopKeys(Start(t.kids[n - 1])) == {} && DistinctLoops(Start(t.kids[n - 1]));
    assert n == 1 ==> KidsStmt(t, n) == Whole(t.kids[0]);
  }

  lemma {:induction false} KidsDistinct(t: Tree, n: nat, i: nat, j: nat)
    requires t.Node? && 0 < n <= |t.kids| && DistinctLoops(KidsStmt(t, n)) && i < n && j < n
    ensures DistinctLoops(LoopOf(t.kids[i]))
    ensures i != j ==> LoopKeys(LoopOf(t.kids[i])) !! LoopKeys(LoopOf(t.kids[j]))
  {
    hide LoopKey, LoopOf, LoopKeys, DistinctLoops, KidsStmt;
    KidsStep(t, n);
    if n > 1 {
      KidsKeys(t, n - 1);
      if i < n - 1 { KidsDistinct(t, n - 1, i, if j < n - 1 then j else i); }
      if j < n - 1 { KidsDistinct(t, n - 1, j, j); }
    }
  }

  lemma OwnKeyIn(t: Tree)
    ensures Key(t) in LoopKeys(LoopOf(t))
  {
    hide LoopKey;
  }

  /** The place of a loop in its node's block is its place among the kids. */
  lemma KidOrder(t: Tree, i: nat, j: nat)
    requires t.Node? && i < |t.kids| && j < |t.kids| && DistinctLoops(LoopOf(t))
    ensures var block := Flatten(LoopOf(t).body);
      && LoopOf(t.kids[i]) in block && LoopOf(t.kids[j]) in block
      && (StandsEarlier(block, LoopOf(t.kids[i]), LoopOf(t.kids[j])) <==> i < j)
      && (LoopOf(t.kids[i]) == LoopOf(t.kids[j]) <==> i == j) && (Key(t.kids[i]) == Key(t.kids[j]) <==> i == j)
  {
    hide LoopKey, LoopOf, Flatten, KidsStmt;
    var n := |t.kids|;
    KidPlace(t, i);
    KidPlace(t, j);
    KeysApart(t, i, j);
  }

  lemma InnerDistinct(t: Tree)
    requires t.Node? && t.kids != [] && DistinctLoops(LoopOf(t))
    ensures DistinctLoops(KidsStmt(t, |t.kids|))
  {
    hide LoopKey, KidsStmt;
  }

  lemma KeysApart(t: Tree, i: nat, j: nat)
    requires t.Node? && i < |t.kids| && j < |t.kids| && DistinctLoops(LoopOf(t))
    ensures Key(t.kids[i]) == Key(t.kids[j]) <==> i == j
  {
    hide LoopKey, LoopOf, KidsStmt, LoopKeys, DistinctLoops;
    InnerDistinct(t);
    KidsDistinct(t, |t.kids|, i, j);
    OwnKeyIn(t.kids[i]);
    OwnKeyIn(t.kids[j]);
  }

  lemma KidPlace(t: Tree, j: nat)
    requires t.Node? && j < |t.kids| && DistinctLoops(LoopOf(t))
    ensures var block := Flatten(LoopOf(t).body);
      LoopOf(t.kids[j]) in block && IndexOf(block, LoopOf(t.kids[j])) == 2 * j + 1
  {
    hide LoopKey, LoopOf, KidsStmt, Flatten;
    var n := |t.kids|;
    BodyBlock(t);
    KidsBlock(t, n);
    var block := Flatten(LoopOf(t).body);
    assert block[2 * j + 1] == LoopOf(t.kids[j]);
    forall k | 0 <= k < 2 * j + 1 ensures block[k] != LoopOf(t.kids[j]) {
      if k % 2 == 0 {
        assert block[2 * (k / 2)] == Start(t.kids[k / 2]);
      } else {
        assert block[2 * (k / 2) + 1] == LoopOf(t.kids[k / 2]);
        KeysApart(t, k / 2, j);
      }
    }
  }

  lemma BlockLoops(t: Tree, k: nat)
    requires t.Node? && t.kids != [] && k < |Flatten(LoopOf(t).body)| && Flatten(LoopOf(t).body)[k].While?
    ensures k / 2 < |t.kids| && Flatten(LoopOf(t).body)[k] == LoopOf(t.kids[k / 2])
  {
    hide LoopKey, LoopOf, KidsStmt, Flatten;
    BodyBlock(t);
    KidsBlock(t, |t.kids|);
    var block := Flatten(KidsStmt(t, |t.kids|));
    assert forall i | 0 <= i < |t.kids| :: block[2 * i].AssignVar?;
    var i := k / 2;
    assert k == 2 * i || k == 2 * i + 1;
  }

  /** Every loop in a node's block is one of its kids; a leaf's block has none. */
  lemma LoopIsKid(t: Tree, w: Stmt) returns (i: nat)
    requires w in Flatten(LoopOf(t).body) && w.While? && (t.Node? ==> t.kids != [])
    ensures t.Node? && i < |t.kids| && w == LoopOf(t.kids[i])
  {
    hide LoopKey, LoopOf, KidsStmt, Flatten;
    BodyBlock(t);
    var block := Flatten(LoopOf(t).body);
    var k :| 0 <= k < |block| && block[k] == w;
    i := k / 2;
    if t.Node? { BlockLoops(t, k); }
  }
}
