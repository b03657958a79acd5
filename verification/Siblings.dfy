/** Sibling loops: which loops `find_previous_sibling_loops` finds, and which iterations the
    invariants of siblings describe (backend/invariant.py:108-212, 234-266). */
module Siblings {
  import opened StencilIr
  import opened Invariant

  // ----- the containment table, for any program with distinct loop texts -----

  lemma {:induction false} LoopTables(c: Stmt, outer: seq<Stmt>)
    ensures LoopsByKey(c).Keys == LoopKeys(c) && Containing(c, outer).Keys == LoopKeys(c)
    ensures forall k | k in LoopKeys(c) :: LoopsByKey(c)[k].While? && LoopKey(LoopsByKey(c)[k]) == k
  {
    hide LoopKey;
    match c
    case Seq(c1, c2) => LoopTables(c1, outer); LoopTables(c2, outer);
    case While(_, _, body) => LoopTables(body, outer + [c]);
    case _ =>
  }

  lemma OwnKeyIsNew(c: Stmt)
    requires c.While?
    ensures LoopKey(c) !in LoopKeys(c.body)
  {
    if LoopKey(c) in LoopKeys(c.body) { InnerTextsAreShorter(c, LoopKey(c)); }
  }

  /** A loop in a block is a loop of the program, under its own key. */
  lemma {:induction false} FlattenLoops(c: Stmt, w: Stmt)
    requires w in Flatten(c) && w.While? && DistinctLoops(c)
    ensures LoopKey(w) in LoopsByKey(c) && LoopsByKey(c)[LoopKey(w)] == w && LoopKeys(w) <= LoopKeys(c)
  {
    hide LoopKey;
    LoopTables(c, []);
    if c.Seq? {
      LoopTables(c.init, []);
      LoopTables(c.last, []);
      if w in Flatten(c.init) { FlattenLoops(c.init, w); } else { FlattenLoops(c.last, w); }
    } else {
      OwnKeyIsNew(c);
      LoopTables(c.body, []);
    }
  }

  /** The loops around a loop: none in its own block, and otherwise the last of them is the
      loop whose block it stands in, which has the others around it. */
  ghost predicate ParentFact(loops: map<string, Stmt>, around: map<string, seq<Stmt>>, block: seq<Stmt>,
                             outer: seq<Stmt>, key: string) {
    && key in around && key in loops
    && var con := around[key];
       && outer <= con && (con == outer <==> loops[key] in block)
       && (con != outer ==>
             var p := con[|con| - 1];
             && p.While? && LoopKey(p) in loops && loops[LoopKey(p)] == p && loops[key] in Flatten(p.body)
             && LoopKey(p) in around && around[LoopKey(p)] == con[..|con| - 1])
  }

  lemma {:induction false} DirectParent(c: Stmt, outer: seq<Stmt>, key: string)
    requires DistinctLoops(c) && key in LoopKeys(c)
    ensures ParentFact(LoopsByKey(c), Containing(c, outer), Flatten(c), outer, key)
  {
    match c
    case Seq(c1, c2) =>
      hide LoopKey, ParentFact, LoopsByKey, Containing, Flatten;
      if key in LoopKeys(c1) {
        DirectParent(c1, outer, key);
        ParentInSeq(c, outer, key, c1, c2);
      } else {
        DirectParent(c2, outer, key);
        ParentInSeq(c, outer, key, c2, c1);
      }
    case While(_, _, body) =>
      hide LoopKey, ParentFact, LoopsByKey, Containing, Flatten;
      if key == LoopKey(c) {
        ParentOfItself(c, outer);
      } else {
        DirectParent(body, outer + [c], key);
        ParentInBody(c, outer, key);
      }
    case _ =>
  }

  lemma ParentExtends(loops: map<string, Stmt>, around: map<string, seq<Stmt>>, block: seq<Stmt>,
                      loops': map<string, Stmt>, around': map<string, seq<Stmt>>, block': seq<Stmt>, outer: seq<Stmt>,
                      key: string)
    requires ParentFact(loops, around, block, outer, key)
    requires forall k | k in loops :: k in loops' && loops'[k] == loops[k]
    requires forall k | k in around :: k in around' && around'[k] == around[k]
    requires loops[key] in block <==> loops[key] in block'
    ensures ParentFact(loops', around', block', outer, key)
  {
    hide LoopKey, Flatten;
  }

  lemma ParentInSeq(c: Stmt, outer: seq<Stmt>, key: string, mine: Stmt, other: Stmt)
    requires c.Seq? && DistinctLoops(c) && ((c.init == mine && c.last == other) || (c.init == other && c.last == mine))
    requires key in LoopKeys(mine) && ParentFact(LoopsByKey(mine), Containing(mine, outer), Flatten(mine), outer, key)
    ensures ParentFact(LoopsByKey(c), Containing(c, outer), Flatten(c), outer, key)
  {
    hide LoopKey, ParentFact;
    LoopTables(mine, outer);
    LoopTables(other, outer);
    var w := LoopsByKey(mine)[key];
    if w in Flatten(other) { FlattenLoops(other, w); }
    ParentExtends(LoopsByKey(mine), Containing(mine, outer), Flatten(mine), LoopsByKey(c), Containing(c, outer),
                  Flatten(c), outer, key);
  }

  lemma ParentOfItself(c: Stmt, outer: seq<Stmt>)
    requires c.While?
    ensures ParentFact(LoopsByKey(c), Containing(c, outer), Flatten(c), outer, LoopKey(c))
  {
    hide LoopKey;
    OwnKeyIsNew(c);
    LoopTables(c.body, outer + [c]);
  }

  lemma ParentInBody(c: Stmt, outer: seq<Stmt>, key: string)
    requires c.While? && DistinctLoops(c) && key in LoopKeys(c.body)
    requires ParentFact(LoopsByKey(c.body), Containing(c.body, outer + [c]), Flatten(c.body), outer + [c], key)
    ensures ParentFact(LoopsByKey(c), Containing(c, outer), Flatten(c), outer, key)
  {
    hide LoopKey;
    OwnKeyIsNew(c);
    LoopTables(c.body, outer + [c]);
    LoopTables(c, outer);
    assert Flatten(c) == [c];
  }

  /** The converse: a loop standing in the block of `p` has `p` as its innermost surrounding loop. */
  lemma {:induction false} BlockMembersHaveParent(c: Stmt, outer: seq<Stmt>, p: Stmt, w: Stmt)
    requires DistinctLoops(c) && p.While? && LoopKey(p) in LoopsByKey(c) && LoopsByKey(c)[LoopKey(p)] == p
    requires w in Flatten(p.body) && w.While?
    ensures LoopKey(w) in LoopsByKey(c) && LoopsByKey(c)[LoopKey(w)] == w && LoopKey(w) in Containing(c, outer)
    ensures var con := Containing(c, outer)[LoopKey(w)]; con != [] && con[|con| - 1] == p
  {
    hide LoopKey, Flatten;
    LoopTables(c, outer);
    match c
    case Seq(c1, c2) =>
      LoopTables(c1, outer);
      LoopTables(c2, outer);
      if LoopKey(p) in LoopKeys(c2) {
        BlockMembersHaveParent(c2, outer, p, w);
      } else {
        BlockMembersHaveParent(c1, outer, p, w);
      }
    case While(_, _, body) =>
      OwnKeyIsNew(c);
      LoopTables(body, outer + [c]);
      if p == c {
        FlattenLoops(body, w);
        DirectParent(body, outer + [c], LoopKey(w));
      } else {
        BlockMembersHaveParent(body, outer + [c], p, w);
      }
    case _ =>
  }

  // ----- previous siblings -----

  /** The tables of a program with distinct loop texts. */
  ghost predicate ProgramTables(g: Tables) {
    DistinctLoops(g.program) && g.loops == LoopsByKey(g.program) && g.containing == Containing(g.program, [])
  }

  /** The block a loop stands in: its parent's body, or the program itself. */
  function BlockOf(g: Tables, key: string): seq<Stmt>
    requires key in g.containing
  {
    var con := g.containing[key];
    if con == [] then Flatten(g.program)
    else if con[|con| - 1].While? then Flatten(con[|con| - 1].body)
    else []
  }

  /** Loop `i` stands before loop `key` in the same block. */
  ghost predicate StandsBefore(g: Tables, i: string, key: string)
    requires key in g.loops && key in g.containing && i in g.loops
  {
    StandsEarlier(BlockOf(g, key), g.loops[i], g.loops[key])
  }

  /** The tables hold a loop under its key, in its block, and its parent likewise. */
  lemma ParentKnown(g: Tables, k: string)
    requires ProgramTables(g) && k in g.loops
    ensures k in g.containing && g.loops[k].While? && LoopKey(g.loops[k]) == k && g.loops[k] in BlockOf(g, k)
    ensures var con := g.containing[k];
      con != [] ==>
        var p := con[|con| - 1];
        && p.While? && LoopKey(p) in g.loops && g.loops[LoopKey(p)] == p && g.loops[k] in Flatten(p.body)
        && LoopKey(p) in g.containing && con == g.containing[LoopKey(p)] + [p]
  {
    hide LoopKey, Flatten, DistinctLoops, LoopsByKey, Containing;
    LoopTables(g.program, []);
    DirectParent(g.program, [], k);
  }

  lemma ParentsKnown(g: Tables)
    requires ProgramTables(g)
    ensures g.containing.Keys == g.loops.Keys
    ensures forall k | k in g.loops :: g.loops[k].While? && LoopKey(g.loops[k]) == k && g.loops[k] in BlockOf(g, k)
    ensures forall k | k in g.loops && g.containing[k] != [] ::
      var con := g.containing[k];
      var p := con[|con| - 1];
      && p.While? && LoopKey(p) in g.loops && g.loops[LoopKey(p)] == p
      && con == g.containing[LoopKey(p)] + [p]
  {
    hide LoopKey, Flatten, DistinctLoops, LoopsByKey, Containing, BlockOf;
    LoopTables(g.program, []);
    forall k | k in g.loops
      ensures g.loops[k].While? && LoopKey(g.loops[k]) == k && g.loops[k] in BlockOf(g, k)
      ensures var con := g.containing[k];
        con != [] ==>
          var p := con[|con| - 1];
          p.While? && LoopKey(p) in g.loops && g.loops[LoopKey(p)] == p && con == g.containing[LoopKey(p)] + [p]
    {
      ParentKnown(g, k);
    }
  }

  /** Two loops stand in the same block exactly when the same loops are around them. */
  lemma SameBlockSameAround(g: Tables, i: string, key: string)
    requires ProgramTables(g) && i in g.loops && key in g.loops
    ensures i in g.containing && key in g.containing
    ensures g.loops[i] in BlockOf(g, key) <==> g.containing[i] == g.containing[key]
  {
    hide LoopKey, Flatten, ProgramTables;
    ParentKnown(g, i);
    ParentKnown(g, key);
    if g.loops[i] in BlockOf(g, key) { SameParent(g, i, key); }
  }

  lemma SameParent(g: Tables, i: string, key: string)
    requires ProgramTables(g) && i in g.loops && key in g.loops && key in g.containing && g.loops[i] in BlockOf(g, key)
    ensures i in g.containing
    ensures if g.containing[key] == [] then g.containing[i] == []
      else g.containing[i] != [] && g.containing[i][|g.containing[i]| - 1] == g.containing[key][|g.containing[key]| - 1]
  {
    hide LoopKey, Flatten, DistinctLoops, LoopsByKey, Containing;
    ParentKnown(g, i);
    ParentKnown(g, key);
    if g.containing[key] == [] {
      LoopTables(g.program, []);
      DirectParent(g.program, [], i);
    } else {
      BlockMembersHaveParent(g.program, [], g.containing[key][|g.containing[key]| - 1], g.loops[i]);
    }
  }

  /** For every program with distinct loop texts, `find_previous_sibling_loops` returns exactly
      the loops standing earlier in the same block when that is the body of a loop, and none
      for a loop of the outermost block, whatever stands before it. */
  lemma PreviousSiblingsAreEarlierLoops(g: Tables, gen: InvariantGenerator, i: string, key: string)
    requires ProgramTables(g) && WellFormedTables(g) && gen.g == g && i in g.loops && key in g.loops
    ensures i in g.containing && key in g.containing && gen.InTheirBlocks()
    ensures gen.IsPrevious(i, key) <==> g.containing[key] != [] && StandsBefore(g, i, key)
  {
    hide LoopKey, Flatten, ProgramTables, StandsEarlier, IterVar;
    forall k | k in g.loops && g.containing[k] != []
      ensures var p := g.containing[k][|g.containing[k]| - 1]; g.loops[k] in Flatten(p.body)
    {
      ParentKnown(g, k);
    }
    ParentKnown(g, i);
    ParentKnown(g, key);
    SameBlockSameAround(g, i, key);
    if StandsBefore(g, i, key) { EarlierIsInBlock(BlockOf(g, key), g.loops[i], g.loops[key]); }
  }

  lemma EarlierIsInBlock(block: seq<Stmt>, c: Stmt, d: Stmt)
    requires StandsEarlier(block, c, d)
    ensures c in block && c != d
  {
  }

  // ----- where a loop stands -----

  /** A loop of the outermost block has no loops around it. */
  lemma AtTheTop(c: Stmt, w: Stmt)
    requires DistinctLoops(c) && w in Flatten(c) && w.While?
    ensures LoopKey(w) in LoopsByKey(c) && LoopsByKey(c)[LoopKey(w)] == w
    ensures LoopKey(w) in Containing(c, []) && Containing(c, [])[LoopKey(w)] == []
  {
    hide LoopKey, Flatten, DistinctLoops, LoopsByKey, Containing;
    FlattenLoops(c, w);
    LoopTables(c, []);
    DirectParent(c, [], LoopKey(w));
  }

  /** A loop in the body of another has that loop around it, and those around that one. */
  lemma InBody(g: Tables, p: Stmt, w: Stmt)
    requires ProgramTables(g) && p.While? && LoopKey(p) in g.loops && g.loops[LoopKey(p)] == p && w in Flatten(p.body)
    requires w.While?
    ensures LoopKey(w) in g.loops && g.loops[LoopKey(w)] == w
    ensures LoopKey(w) in g.containing && LoopKey(p) in g.containing
    ensures g.containing[LoopKey(w)] == g.containing[LoopKey(p)] + [p]
  {
    hide LoopKey, Flatten, DistinctLoops, LoopsByKey, Containing;
    ParentsKnown(g);
    BlockMembersHaveParent(g.program, [], p, w);
  }
}
