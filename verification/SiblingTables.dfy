/** The tables and the generated invariants of a program, and the way from its outermost loops
    down to a loop. */
module SiblingTables {
  import opened StencilIr
  import opened Invariant
  import opened Siblings

  /** A program with distinct loop texts and distinct loop variables, and its tables. */
  ghost predicate Setup(g: Tables, loopvars: set<string>) {
    && ProgramTables(g) && WellFormedTables(g)
    && IsNesting(g.nesting, loopvars, g.loops, g.containing)
    && forall k, l | k in g.loops && l in g.loops && k != l :: IterVar(g.loops[k]) != IterVar(g.loops[l])
  }

  /** What the generator returns for every loop, the earlier siblings being met in any order. */
  ghost predicate GeneratedInfos(g: Tables, infos: map<string, Info>, previous: map<string, seq<string>>)
    requires WellFormedTables(g)
  {
    && infos.Keys == g.loops.Keys == previous.Keys
    && (forall k | k in g.loops :: forall i | i in previous[k] :: i in g.loops)
    && (forall k | k in g.loops :: infos[k] == InfoFor(g, k, previous[k]))
    && (forall k, i | k in g.loops && i in g.loops ::
          i in previous[k] <==> g.containing[k] != [] && StandsBefore(g, i, k))
  }

  // ----- the way down to a loop -----

  /** The loops around a loop, outermost first, and the loop itself. */
  function PathOf(g: Tables, key: string): (p: seq<Stmt>)
    requires key in g.loops && key in g.containing
    ensures p != [] && p[|p| - 1] == g.loops[key] && p[..|p| - 1] == g.containing[key]
  {
    g.containing[key] + [g.loops[key]]
  }

  lemma InTables(g: Tables)
    requires WellFormedTables(g)
    ensures g.containing.Keys == g.loops.Keys && g.mins.Keys == g.nesting.Keys == g.maxs.Keys
    ensures forall k | k in g.loops :: IterVar(g.loops[k]) in g.nesting && g.loops[k].While?
  {
    hide LoopKey;
  }

  /** The path of a loop is that of its parent, followed by the loop. */
  lemma ParentPath(g: Tables, key: string)
    requires ProgramTables(g) && WellFormedTables(g) && key in g.loops
    ensures key in g.containing && g.loops[key].While? && LoopKey(g.loops[key]) == key
    ensures g.containing[key] != [] ==>
      var p := g.containing[key][|g.containing[key]| - 1];
      LoopKey(p) in g.loops && LoopKey(p) in g.containing && PathOf(g, LoopKey(p)) == g.containing[key]
  {
    hide LoopKey, WellFormedTables, BlockOf, DistinctLoops, LoopsByKey, Containing;
    InTables(g);
    ParentsKnown(g);
  }

  /** A loop on the path of another has the path up to it. */
  lemma {:induction false} PathFacts(g: Tables, loopvars: set<string>, key: string, b: nat)
    requires Setup(g, loopvars) && key in g.loops && b < |PathOf(g, key)|
    ensures var a := PathOf(g, key)[b];
      && a.While? && LoopKey(a) in g.loops && g.loops[LoopKey(a)] == a
      && g.containing[LoopKey(a)] == PathOf(g, key)[..b] && PathOf(g, LoopKey(a)) == PathOf(g, key)[..b + 1]
    decreases |g.containing[key]|
  {
    hide LoopKey, WellFormedTables, IsNesting, ProgramTables, PathOf;
    InTables(g);
    ParentPath(g, key);
    var con, path := g.containing[key], PathOf(g, key);
    FrontPart(path, b);
    if b < |con| { PathFacts(g, loopvars, LoopKey(con[|con| - 1]), b); }
  }

  lemma FrontPart(path: seq<Stmt>, b: nat)
    requires b < |path|
    ensures var con := path[..|path| - 1];
      if b < |con| then con[b] == path[b] && con[..b] == path[..b] && con[..b + 1] == path[..b + 1]
      else path[..b] == con && path[..b + 1] == path
  {
  }

  /** A loop on two paths stands at the same place of both, behind the same loops. */
  lemma OnBothPaths(g: Tables, loopvars: set<string>, k: string, l: string, a: nat, b: nat)
    requires Setup(g, loopvars) && k in g.loops && l in g.loops
    requires a < |PathOf(g, k)| && b < |PathOf(g, l)| && PathOf(g, k)[a] == PathOf(g, l)[b]
    ensures a == b && PathOf(g, k)[..a] == PathOf(g, l)[..a]
  {
    hide LoopKey, WellFormedTables, IsNesting, ProgramTables, PathOf;
    InTables(g);
    PathFacts(g, loopvars, k, a);
    PathFacts(g, loopvars, l, b);
  }

  /** How far two paths run together. */
  function Shared(p: seq<Stmt>, q: seq<Stmt>): (d: nat)
    ensures d <= |p| && d <= |q| && p[..d] == q[..d]
    ensures d < |p| && d < |q| ==> p[d] != q[d]
  {
    if p != [] && q != [] && p[0] == q[0] then
      var d := Shared(p[1..], q[1..]);
      assert p == [p[0]] + p[1..] && q == [q[0]] + q[1..];
      1 + d
    else 0
  }

  lemma {:induction false} SharedSoFar(p: seq<Stmt>, q: seq<Stmt>, a: nat)
    requires a < |p| && a < |q| && p[..a + 1] == q[..a + 1]
    ensures a < Shared(p, q)
  {
    assert p[0] == p[..a + 1][0] && q[0] == q[..a + 1][0];
    if a > 0 {
      assert p[1..][..a] == p[..a + 1][1..] && q[1..][..a] == q[..a + 1][1..];
      SharedSoFar(p[1..], q[1..], a - 1);
    }
  }

  lemma OnlySharedOnBoth(g: Tables, loopvars: set<string>, k: string, l: string, a: nat)
    requires Setup(g, loopvars) && k in g.loops && l in g.loops && a < |PathOf(g, k)|
    ensures PathOf(g, k)[a] in PathOf(g, l) <==> a < Shared(PathOf(g, k), PathOf(g, l))
  {
    hide LoopKey, WellFormedTables, IsNesting, ProgramTables, PathOf, Shared;
    InTables(g);
    var p, q := PathOf(g, k), PathOf(g, l);
    var d := Shared(p, q);
    if p[a] in q {
      var b :| 0 <= b < |q| && q[b] == p[a];
      OnBothPaths(g, loopvars, k, l, a, b);
      assert p[..a + 1] == p[..a] + [p[a]] && q[..a + 1] == q[..a] + [q[a]];
      SharedSoFar(p, q, a);
    }
    if a < d { assert p[..d][a] == q[..d][a]; }
  }

  // ----- ranges -----

  /** The ranges of the clause a loop contributes for itself. */
  lemma CurrentRanges(g: Tables, loopvars: set<string>, k: string, y: string)
    requires Setup(g, loopvars) && k in g.loops && y in g.loops
    ensures IterVar(g.loops[k]) in g.nesting && IterVar(g.loops[y]) in g.nesting
    ensures var c, v := CurrentClause(g, k), IterVar(g.loops[y]);
      && (v in c.ranges <==> g.loops[y] in PathOf(g, k) || g.loops[k] in PathOf(g, y))
      && (v in c.ranges ==>
            c.ranges[v] == (if y == k then Range(g.mins[v], Var(v))
                            else if g.loops[y] in g.containing[k] then Current(v) else FullRange(g, v)))
  {
    hide LoopKey, IsNesting, Current, OutputsOf, ProgramTables, OwnRanges;
    InNesting(g, loopvars, y, k);
    InNesting(g, loopvars, k, y);
    InNesting(g, loopvars, k, k);
    ParentsApart(g, loopvars, y, k);
    ParentsApart(g, loopvars, k, k);
    NestingOf(g, loopvars, k);
    NotAroundEachOther(g, loopvars, k, y);
    OwnRangeAt(g, k, IterVar(g.loops[y]));
  }

  lemma NotAroundEachOther(g: Tables, loopvars: set<string>, k: string, y: string)
    requires Setup(g, loopvars) && k in g.loops && y in g.loops
    ensures k in g.containing && y in g.containing
    ensures !(g.loops[y] in g.containing[k] && g.loops[k] in g.containing[y])
  {
    hide LoopKey, IsNesting, WellFormedTables, ProgramTables;
    InTables(g);
    var p, q := PathOf(g, k), PathOf(g, y);
    if g.loops[y] in g.containing[k] && g.loops[k] in g.containing[y] {
      var a :| 0 <= a < |p| - 1 && p[a] == g.loops[y];
      var b :| 0 <= b < |q| - 1 && q[b] == g.loops[k];
      OnBothPaths(g, loopvars, k, y, a, |q| - 1);
      OnBothPaths(g, loopvars, k, y, |p| - 1, b);
      assert false;
    }
  }

  /** The ranges of the clause for an earlier sibling. */
  lemma SiblingRanges(g: Tables, loopvars: set<string>, k: string, y: string)
    requires Setup(g, loopvars) && k in g.loops && y in g.loops
    ensures IterVar(g.loops[k]) in g.nesting && IterVar(g.loops[y]) in g.nesting
    ensures var c, v := SiblingClause(g, IterVar(g.loops[k])), IterVar(g.loops[y]);
      && (v in c.ranges <==> g.loops[y] in PathOf(g, k))
      && (v in c.ranges ==> c.ranges[v] == if y == k then FullRange(g, v) else Current(v))
  {
    hide LoopKey, IsNesting, Current, OutputsOf, ProgramTables;
    InNesting(g, loopvars, y, k);
    InNesting(g, loopvars, k, y);
    ParentsApart(g, loopvars, y, k);
  }

  /** Different keys, different loops. */
  lemma ParentsApart(g: Tables, loopvars: set<string>, y: string, k: string)
    requires Setup(g, loopvars) && k in g.loops && y in g.loops
    ensures g.loops[y] == g.loops[k] <==> y == k
    ensures g.loops[k] !in g.containing[k]
  {
    hide LoopKey, IsNesting, WellFormedTables, Flatten;
    InTables(g);
    ParentsKnown(g);
    if b :| 0 <= b < |g.containing[k]| && g.containing[k][b] == g.loops[k] {
      assert PathOf(g, k)[b] == g.loops[k];
      OnBothPaths(g, loopvars, k, k, b, |g.containing[k]|);
    }
  }

  lemma NestingOf(g: Tables, loopvars: set<string>, key: string)
    requires Setup(g, loopvars) && key in g.loops
    ensures IterVar(g.loops[key]) in g.nesting
    ensures g.nesting[IterVar(g.loops[key])] == IterVars(g.containing[key])
  {
    hide LoopKey, ProgramTables;
  }

  /** The list of the variables around a loop's variable is that of its parent, followed by the
      parent's variable: the outermost comes first. */
  lemma NestingOfChild(g: Tables, loopvars: set<string>, key: string)
    requires Setup(g, loopvars) && key in g.loops
    ensures key in g.containing && IterVar(g.loops[key]) in g.nesting
    ensures var con, v := g.containing[key], IterVar(g.loops[key]);
      if con == [] then g.nesting[v] == []
      else
        var p := con[|con| - 1];
        && IterVar(p) in g.nesting
        && g.nesting[v] == g.nesting[IterVar(p)] + [IterVar(p)]
  {
    hide LoopKey, WellFormedTables, IsNesting, ProgramTables;
    InTables(g);
    NestingOf(g, loopvars, key);
    ParentPath(g, key);
    var con := g.containing[key];
    if con != [] {
      var k := LoopKey(con[|con| - 1]);
      NestingOf(g, loopvars, k);
      assert PathOf(g, k)[|con| - 1] == con[|con| - 1] && PathOf(g, k)[..|con| - 1] == g.containing[k];
      assert con == g.containing[k] + [con[|con| - 1]];
    }
  }

  /** The loop variables around loop `key` are those of the loops around it. */
  lemma InNesting(g: Tables, loopvars: set<string>, i: string, key: string)
    requires Setup(g, loopvars) && key in g.loops && i in g.loops
    ensures IterVar(g.loops[key]) in g.nesting
    ensures IterVar(g.loops[i]) in g.nesting[IterVar(g.loops[key])] <==> g.loops[i] in g.containing[key]
  {
    hide LoopKey, IsNesting, ProgramTables;
    NestingOf(g, loopvars, key);
    var con := g.containing[key];
    var vs := IterVars(con);
    if g.loops[i] in con {
      var b :| 0 <= b < |con| && con[b] == g.loops[i];
      assert vs[b] == IterVar(g.loops[i]);
    }
    if IterVar(g.loops[i]) in vs {
      var b :| 0 <= b < |vs| && vs[b] == IterVar(g.loops[i]);
      assert PathOf(g, key)[b] == con[b];
      PathFacts(g, loopvars, key, b);
    }
  }

  // ----- every program has such tables and infos -----

  predicate DistinctVars(c: Stmt) {
    forall k, l | k in LoopsByKey(c) && l in LoopsByKey(c) && k != l ::
      IterVar(LoopsByKey(c)[k]) != IterVar(LoopsByKey(c)[l])
  }

  ghost function KeyOf(c: Stmt, v: string): (k: string)
    requires v in LoopVarsOf(LoopsByKey(c))
    ensures k in LoopsByKey(c) && IterVar(LoopsByKey(c)[k]) == v
  {
    hide LoopKey;
    var k :| k in LoopsByKey(c) && IterVar(LoopsByKey(c)[k]) == v;
    k
  }

  /** Every loop around a loop is a loop of the program. */
  lemma AroundAreLoops(c: Stmt, key: string, b: nat)
    requires DistinctLoops(c) && key in LoopsByKey(c) && key in Containing(c, []) && b < |Containing(c, [])[key]|
    ensures var a := Containing(c, [])[key][b];
      a.While? && LoopKey(a) in LoopsByKey(c) && LoopsByKey(c)[LoopKey(a)] == a
    decreases |Containing(c, [])[key]|
  {
    hide LoopKey, DistinctLoops, LoopsByKey, Containing, Flatten;
    LoopTables(c, []);
    DirectParent(c, [], key);
    var con := Containing(c, [])[key];
    if b < |con| - 1 {
      AroundAreLoops(c, LoopKey(con[|con| - 1]), b);
      assert con[..|con| - 1][b] == con[b];
    }
  }

  ghost function NestingMap(c: Stmt): (r: map<string, seq<string>>)
    requires DistinctLoops(c)
    ensures r.Keys == LoopVarsOf(LoopsByKey(c))
    ensures forall v | v in r :: KeyOf(c, v) in Containing(c, []) && r[v] == IterVars(Containing(c, [])[KeyOf(c, v)])
  {
    hide LoopKey, LoopsByKey, Containing, DistinctLoops;
    LoopTables(c, []);
    map v | v in LoopVarsOf(LoopsByKey(c)) :: IterVars(Containing(c, [])[KeyOf(c, v)])
  }

  lemma NestingAt(c: Stmt, k: string)
    requires DistinctLoops(c) && DistinctVars(c) && k in LoopsByKey(c) && k in Containing(c, [])
    ensures IterVar(LoopsByKey(c)[k]) in NestingMap(c)
    ensures NestingMap(c)[IterVar(LoopsByKey(c)[k])] == IterVars(Containing(c, [])[k])
  {
    hide LoopKey, LoopsByKey, Containing, DistinctLoops, IterVars;
    var v := IterVar(LoopsByKey(c)[k]);
    assert v in LoopVarsOf(LoopsByKey(c));
    assert KeyOf(c, v) == k;
  }

  lemma NestingIsTheirs(c: Stmt)
    requires DistinctLoops(c) && DistinctVars(c)
    ensures IsNesting(NestingMap(c), LoopVarsOf(LoopsByKey(c)), LoopsByKey(c), Containing(c, []))
  {
    hide LoopKey, LoopsByKey, Containing, DistinctLoops, DistinctVars, IterVars, NestingMap, KeyOf, IterVar;
    forall k | k in LoopsByKey(c) && k in Containing(c, [])
      ensures NestingMap(c)[IterVar(LoopsByKey(c)[k])] == IterVars(Containing(c, [])[k])
    {
      NestingAt(c, k);
    }
  }

  lemma NestingIsClosed(c: Stmt, v: string, x: string)
    requires DistinctLoops(c) && v in NestingMap(c) && x in NestingMap(c)[v]
    ensures x in NestingMap(c)
  {
    hide LoopKey, LoopsByKey, Containing, DistinctLoops, IterVars, LoopVarsOf;
    NestingIsInside(c, KeyOf(c, v), x);
  }

  lemma TablesWellFormed(g: Tables)
    requires DistinctLoops(g.program) && DistinctVars(g.program)
    requires g.loops == LoopsByKey(g.program) && g.containing == Containing(g.program, [])
    requires g.nesting == NestingMap(g.program)
    requires g.mins.Keys == g.maxs.Keys == g.nesting.Keys
    ensures WellFormedTables(g)
  {
    hide LoopKey, LoopsByKey, Containing, DistinctLoops, IterVars, DistinctVars, NestingMap, KeyOf, LoopVarsOf;
    var c := g.program;
    LoopTables(c, []);
    forall k | k in g.loops ensures IterVar(g.loops[k]) in g.nesting { NestingAt(c, k); }
    forall k | k in g.containing ensures forall w | w in g.containing[k] :: w.While? { AllAroundAreLoops(c, k); }
    forall v: string, x: string | v in g.nesting && x in g.nesting[v]
      ensures x in g.nesting
    {
      NestingIsClosed(c, v, x);
    }
  }

  lemma AllAroundAreLoops(c: Stmt, k: string)
    requires DistinctLoops(c) && k in LoopsByKey(c) && k in Containing(c, [])
    ensures forall w | w in Containing(c, [])[k] :: w.While?
  {
    hide LoopKey, LoopsByKey, Containing, DistinctLoops;
    forall w | w in Containing(c, [])[k] ensures w.While? {
      var b :| 0 <= b < |Containing(c, [])[k]| && Containing(c, [])[k][b] == w;
      AroundAreLoops(c, k, b);
    }
  }

  /** The tables of a program with distinct loop texts and distinct loop variables, whatever
      bounds were found. */
  lemma SetupExists(c: Stmt, mins: map<string, Exp>, maxs: map<string, Exp>) returns (g: Tables)
    requires DistinctLoops(c) && DistinctVars(c) && mins.Keys == maxs.Keys == LoopVarsOf(LoopsByKey(c))
    ensures g.program == c && g.mins == mins && g.maxs == maxs && Setup(g, LoopVarsOf(LoopsByKey(c)))
  {
    hide LoopKey, LoopsByKey, Containing, DistinctLoops, IterVars, NestingMap, WellFormedTables, IsNesting, LoopVarsOf,
      IterVar;
    g := Tables(LoopsByKey(c), Containing(c, []), NestingMap(c), mins, maxs, c);
    NestingIsTheirs(c);
    TablesWellFormed(g);
  }

  lemma NestingIsInside(c: Stmt, key: string, x: string)
    requires DistinctLoops(c) && key in LoopsByKey(c) && key in Containing(c, [])
    requires x in IterVars(Containing(c, [])[key])
    ensures x in LoopVarsOf(LoopsByKey(c))
  {
    hide LoopKey, LoopsByKey, Containing, DistinctLoops;
    var b :| 0 <= b < |Containing(c, [])[key]| && IterVars(Containing(c, [])[key])[b] == x;
    AroundAreLoops(c, key, b);
  }

  ghost function PreviousOf(g: Tables, k: string): set<string>
    requires k in g.loops && g.containing.Keys == g.loops.Keys
  {
    set i | i in g.loops && g.containing[k] != [] && StandsBefore(g, i, k)
  }

  /** The invariants the generator returns for such tables. */
  lemma GeneratedInfosExist(g: Tables, loopvars: set<string>)
    returns (infos: map<string, Info>, previous: map<string, seq<string>>)
    requires Setup(g, loopvars)
    ensures GeneratedInfos(g, infos, previous)
  {
    hide LoopKey, IsNesting, InfoFor, StandsBefore, ProgramTables, WellFormedTables, IterVar;
    InTables(g);
    previous := map k | k in g.loops :: ToSeq(PreviousOf(g, k));
    infos := map k | k in g.loops :: InfoFor(g, k, previous[k]);
  }
}
