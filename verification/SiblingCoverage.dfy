/** Which executed iterations the generated invariants describe, in programs of any shape. */
module SiblingCoverage {
  import opened StencilIr
  import opened Interpret
  import opened VerifyTheorems
  import opened Invariant
  import opened Siblings
  import opened SiblingTables
  import opened NestMeaning

  // ----- iterations -----

  function Now(x: string, s: State): int { IntOf(Lookup(s, x)) }

  /** `env` is an iteration of loop `x`: values within the bounds of the loops on its path. */
  ghost predicate IsIteration(g: Tables, x: string, env: string -> int, s: State, m: Model)
    requires WellFormedTables(g) && x in g.loops
  {
    forall b | 0 <= b < |PathOf(g, x)| && IterVar(PathOf(g, x)[b]) in g.nesting ::
      Within(FullRange(g, IterVar(PathOf(g, x)[b])), env(IterVar(PathOf(g, x)[b])), s, m)
  }

  /** The first `n` loops of a path are in their current iteration. */
  ghost predicate CurrentUpTo(path: seq<Stmt>, n: nat, env: string -> int, s: State)
    requires n <= |path|
  {
    forall b | 0 <= b < n :: env(IterVar(path[b])) == Now(IterVar(path[b]), s)
  }

  /** The iteration belongs to an earlier iteration of one of the first `n` loops. */
  ghost predicate EarlierWithin(path: seq<Stmt>, n: nat, env: string -> int, s: State)
    requires n <= |path|
  {
    exists a | 0 <= a < n :: CurrentUpTo(path, a, env, s) && env(IterVar(path[a])) < Now(IterVar(path[a]), s)
  }

  /** How far the paths of two loops run together. */
  function Meet(g: Tables, x: string, here: string): (d: nat)
    requires WellFormedTables(g) && x in g.loops && here in g.loops
    ensures d <= |PathOf(g, here)| && d <= |PathOf(g, x)|
  {
    Shared(PathOf(g, here), PathOf(g, x))
  }

  /** Behind the common loops, `x` lies in or is a loop that stands before the one in which
      `here` lies or which it is. */
  ghost predicate EarlierBranch(g: Tables, x: string, here: string)
    requires WellFormedTables(g) && x in g.loops && here in g.loops
  {
    var p, q, d := PathOf(g, here), PathOf(g, x), Meet(g, x, here);
    && d < |p| && d < |q|
    && LoopKey(p[d]) in g.loops && LoopKey(q[d]) in g.loops
    && StandsBefore(g, LoopKey(q[d]), LoopKey(p[d]))
  }

  /** At the head of loop `here`, iteration `env` of loop `x` has been executed to its end: it
      belongs to an earlier iteration of a loop common to both, or, in the current iteration of
      those, to an earlier branch. Loop `x` is any loop of the program: around `here`, `here`
      itself, inside it, beside it, inside a loop beside it, or anywhere at the top. */
  ghost predicate Executed(g: Tables, x: string, here: string, env: string -> int, s: State)
    requires WellFormedTables(g) && x in g.loops && here in g.loops
  {
    var p, d := PathOf(g, here), Meet(g, x, here);
    EarlierWithin(p, d, env, s) || (CurrentUpTo(p, d, env, s) && EarlierBranch(g, x, here))
  }

  // ----- what clauses say about an array -----

  /** Loop `x` writes array `a` at an index that mentions the variables of all loops on its path. */
  ghost predicate Writes(g: Tables, a: string, x: string)
    requires WellFormedTables(g) && x in g.loops
  {
    forall b | 0 <= b < |PathOf(g, x)| :: IterVar(PathOf(g, x)[b]) in IndexVars(g.loops[x], a)
  }

  /** No other loop's variable is mentioned in an index of the array. */
  ghost predicate WritesAlone(g: Tables, a: string, x: string)
    requires WellFormedTables(g) && x in g.loops
  {
    forall k | k in g.loops && g.loops[k] !in PathOf(g, x) :: IterVar(g.loops[k]) !in IndexVars(g.program, a)
  }

  /** The clause lists the array, and its box contains the iteration `env` of loop `x`; `free`
      tells how a loop variable without a range is read. */
  ghost predicate Describes(g: Tables, c: Clause, a: string, x: string, env: string -> int, free: bool, s: State,
                            m: Model)
    requires WellFormedTables(g) && x in g.loops
  {
    && a in c.outputs
    && forall b | 0 <= b < |PathOf(g, x)| ::
         Allows(c, IterVar(PathOf(g, x)[b]), env(IterVar(PathOf(g, x)[b])), free, s, m)
  }

  lemma {:induction false} IndexVarsInside(c: Stmt, k: string, a: string)
    requires DistinctLoops(c) && k in LoopsByKey(c)
    ensures IndexVars(LoopsByKey(c)[k], a) <= IndexVars(c, a)
  {
    hide LoopKey;
    LoopTables(c, []);
    match c
    case Seq(c1, c2) =>
      LoopTables(c1, []);
      LoopTables(c2, []);
      if k in LoopsByKey(c2) { IndexVarsInside(c2, k, a); } else { IndexVarsInside(c1, k, a); }
    case While(_, _, body) => if k in LoopsByKey(body) { IndexVarsInside(body, k, a); }
    case _ =>
  }

  lemma {:induction false} IndexedIsOutput(c: Stmt, a: string, v: string)
    requires v in IndexVars(c, a)
    ensures a in Outputs(c)
  {
    match c
    case Seq(c1, c2) => if v in IndexVars(c1, a) { IndexedIsOutput(c1, a, v); } else { IndexedIsOutput(c2, a, v); }
    case While(_, _, body) => IndexedIsOutput(body, a, v);
    case _ =>
  }

  /** The clauses of the loops on the path of `x` list the array it writes. */
  lemma OnPathListed(g: Tables, loopvars: set<string>, a: string, x: string, b: nat)
    requires Setup(g, loopvars) && x in g.loops && Writes(g, a, x) && b < |PathOf(g, x)|
    ensures a in OutputsOf(g, IterVar(PathOf(g, x)[b]))
  {
    hide LoopKey, WellFormedTables, IsNesting, IndexVars, Outputs, PathOf, DistinctLoops, LoopsByKey, Containing;
    InTables(g);
    IndexVarsInside(g.program, x, a);
    IndexedIsOutput(g.program, a, IterVar(PathOf(g, x)[b]));
  }

  /** When `x` writes alone, no clause of a loop elsewhere lists the array. */
  lemma OffPathUnlisted(g: Tables, a: string, x: string, k: string)
    requires WellFormedTables(g) && x in g.loops && k in g.loops && g.loops[k] !in PathOf(g, x) && WritesAlone(g, a, x)
    ensures a !in OutputsOf(g, IterVar(g.loops[k]))
  {
    hide LoopKey, WellFormedTables, IndexVars, Outputs, PathOf;
  }

  /** It is enough that no loop elsewhere has a variable that an index of the array mentions. */
  lemma AloneIfWithin(g: Tables, loopvars: set<string>, a: string, x: string)
    requires Setup(g, loopvars) && x in g.loops
    requires forall k | k in g.loops && IterVar(g.loops[k]) in IndexVars(g.program, a) ::
      exists b | 0 <= b < |PathOf(g, x)| :: IterVar(PathOf(g, x)[b]) == IterVar(g.loops[k])
    ensures WritesAlone(g, a, x)
  {
    hide LoopKey, WellFormedTables, IsNesting, IndexVars, ProgramTables, PathOf, IterVar;
    InTables(g);
    forall k | k in g.loops && g.loops[k] !in PathOf(g, x) ensures IterVar(g.loops[k]) !in IndexVars(g.program, a) {
      if IterVar(g.loops[k]) in IndexVars(g.program, a) {
        var b :| 0 <= b < |PathOf(g, x)| && IterVar(PathOf(g, x)[b]) == IterVar(g.loops[k]);
        PathFacts(g, loopvars, x, b);
      }
    }
  }

  // ----- what each clause describes -----

  ghost predicate IntsAround(con: seq<Stmt>, s: State) {
    forall b | 0 <= b < |con| :: Lookup(s, IterVar(con[b])).IntV?
  }

  lemma CurrentWithin(x: string, n: int, s: State, m: Model)
    requires Standard(m) && Lookup(s, x).IntV?
    ensures Within(Current(x), n, s, m) <==> n == Now(x, s)
  {
    hide Eval, Standard;
    CurrentRange(x, s, m);
  }

  lemma VarHi(lo: Exp, x: string, n: int, s: State, m: Model)
    ensures Within(Range(lo, Var(x)), n, s, m) <==> IntOf(Eval(lo, s, m)) <= n < Now(x, s)
  {
    EvalVar(x, s, m);
  }

  /** Place `b` of a path: a loop of the tables, whose bounds the iteration respects. */
  lemma OnPath(g: Tables, loopvars: set<string>, x: string, b: nat, env: string -> int, s: State, m: Model)
    requires Setup(g, loopvars) && x in g.loops && b < |PathOf(g, x)| && IsIteration(g, x, env, s, m)
    ensures var w := PathOf(g, x)[b];
      && LoopKey(w) in g.loops && g.loops[LoopKey(w)] == w
      && IterVar(w) in g.nesting && IterVar(w) in g.mins && IterVar(w) in g.maxs
      && Within(FullRange(g, IterVar(w)), env(IterVar(w)), s, m)
  {
    hide LoopKey, WellFormedTables, IsNesting, ProgramTables, PathOf, Within, FullRange;
    InTables(g);
    PathFacts(g, loopvars, x, b);
  }

  /** The range of place `b` of a path in the clause of the loop at place `j`. */
  lemma PathRange(g: Tables, loopvars: set<string>, x: string, j: nat, b: nat, env: string -> int, s: State, m: Model)
    requires Setup(g, loopvars) && Standard(m) && x in g.loops && j < |PathOf(g, x)| && b < |PathOf(g, x)|
    requires IntsAround(PathOf(g, x)[..j], s) && IsIteration(g, x, env, s, m)
    ensures LoopKey(PathOf(g, x)[j]) in g.loops
    ensures var q := PathOf(g, x);
      var c, v := CurrentClause(g, LoopKey(q[j])), IterVar(q[b]);
      && v in c.ranges
      && (Within(c.ranges[v], env(v), s, m) <==>
            if b < j then env(v) == Now(v, s) else if b == j then env(v) < Now(v, s) else true)
  {
    hide LoopKey, Setup, WellFormedTables, Current, CurrentClause, Eval, Standard, PathOf, IsIteration;
    SetupTables(g, loopvars);
    OwnKey(g, loopvars, x);
    OnPath(g, loopvars, x, j, env, s, m);
    OnPath(g, loopvars, x, b, env, s, m);
    PathPlaces(g, loopvars, x, j, b);
    var q := PathOf(g, x);
    var v := IterVar(q[b]);
    CurrentRanges(g, loopvars, LoopKey(q[j]), LoopKey(q[b]));
    if b < j {
      assert q[..j][b] == q[b];
      CurrentWithin(v, env(v), s, m);
    } else if b == j {
      VarHi(g.mins[v], v, env(v), s, m);
    }
  }

  /** Who is around whom on a path. */
  lemma PathPlaces(g: Tables, loopvars: set<string>, x: string, j: nat, b: nat)
    requires Setup(g, loopvars) && x in g.loops && j < |PathOf(g, x)| && b < |PathOf(g, x)|
    ensures var q := PathOf(g, x);
      && LoopKey(q[j]) in g.loops && LoopKey(q[b]) in g.loops
      && (LoopKey(q[j]) == LoopKey(q[b]) <==> j == b)
      && (q[b] in g.containing[LoopKey(q[j])] <==> b < j)
      && (q[b] in PathOf(g, LoopKey(q[j])) || q[j] in PathOf(g, LoopKey(q[b])))
  {
    hide LoopKey, WellFormedTables, IsNesting, ProgramTables, PathOf;
    InTables(g);
    var q := PathOf(g, x);
    PathFacts(g, loopvars, x, j);
    PathFacts(g, loopvars, x, b);
    if b < j {
      assert q[..j][b] == q[b] && q[..j + 1][b] == q[b];
    } else {
      assert q[..b + 1][j] == q[j];
      if q[b] in q[..j] {
        var i :| 0 <= i < j && q[..j][i] == q[b];
        OnBothPaths(g, loopvars, x, x, i, b);
      }
    }
  }

  /** The clause of a loop on the path of `x` describes, for the arrays it lists, the iterations
      of `x` that belong to an earlier iteration of that loop, within the current ones of the
      loops around it. */
  lemma PathClauseDescribes(g: Tables, loopvars: set<string>, a: string, x: string, j: nat, env: string -> int,
                            free: bool, s: State, m: Model)
    requires Setup(g, loopvars) && Standard(m) && x in g.loops && j < |PathOf(g, x)|
    requires IntsAround(PathOf(g, x)[..j], s) && IsIteration(g, x, env, s, m)
    ensures var q := PathOf(g, x);
      && LoopKey(q[j]) in g.loops
      && (Describes(g, CurrentClause(g, LoopKey(q[j])), a, x, env, free, s, m)
          <==> && a in OutputsOf(g, IterVar(q[j]))
               && CurrentUpTo(q, j, env, s) && env(IterVar(q[j])) < Now(IterVar(q[j]), s))
  {
    hide LoopKey, WellFormedTables, IsNesting, ProgramTables, OutputsOf, PathOf, Within, IsIteration,
      IntsAround, Standard, OwnRanges;
    InTables(g);
    var q := PathOf(g, x);
    PathFacts(g, loopvars, x, j);
    var c := CurrentClause(g, LoopKey(q[j]));
    forall b | 0 <= b < |q|
      ensures IterVar(q[b]) in c.ranges
      ensures Within(c.ranges[IterVar(q[b])], env(IterVar(q[b])), s, m) <==>
        if b < j then env(IterVar(q[b])) == Now(IterVar(q[b]), s)
        else if b == j then env(IterVar(q[b])) < Now(IterVar(q[b]), s) else true
    {
      PathRange(g, loopvars, x, j, b, env, s, m);
    }
  }

  /** The clause of a loop off the path of `x` describes nothing of it. */
  lemma OffPathSilent(g: Tables, loopvars: set<string>, a: string, x: string, k: string, env: string -> int,
                      free: bool, s: State, m: Model)
    requires Setup(g, loopvars) && x in g.loops && k in g.loops && g.loops[k] !in PathOf(g, x)
    requires free || g.loops[x] in g.containing[k] ==> WritesAlone(g, a, x)
    ensures !Describes(g, CurrentClause(g, k), a, x, env, free, s, m)
  {
    hide LoopKey, WellFormedTables, IsNesting, ProgramTables, OutputsOf, Within, WritesAlone, OwnRanges;
    InTables(g);
    CurrentRanges(g, loopvars, k, x);
    var q := PathOf(g, x);
    assert q[|q| - 1] == g.loops[x];
    if free || g.loops[x] in g.containing[k] { OffPathUnlisted(g, a, x, k); }
  }

  /** The clause for an earlier sibling `p` describes, for the arrays it lists, the current outer
      iteration's iterations of `p`; those of the loops inside `p` when the variables without a
      range are free; and none of any loop elsewhere. */
  lemma SiblingClauseDescribes(g: Tables, loopvars: set<string>, a: string, p: string, x: string, env: string -> int,
                               free: bool, s: State, m: Model)
    requires Setup(g, loopvars) && Standard(m) && p in g.loops && x in g.loops
    requires free || g.loops[x] in g.containing[p] ==> WritesAlone(g, a, x)
    requires IntsAround(g.containing[p], s) && IsIteration(g, x, env, s, m)
    ensures IterVar(g.loops[p]) in g.nesting
    ensures Describes(g, SiblingClause(g, IterVar(g.loops[p])), a, x, env, free, s, m)
      <==> && g.loops[p] in PathOf(g, x) && (x == p || free)
           && a in OutputsOf(g, IterVar(g.loops[p])) && AroundIsCurrent(g, p, env, s)
  {
    hide LoopKey, WellFormedTables, IsNesting, ProgramTables, OutputsOf, Within, WritesAlone, Standard, PathOf,
      Eval, SiblingClause, IntsAround, AroundIsCurrent;
    InTables(g);
    if g.loops[p] in PathOf(g, x) {
      OnPathSibling(g, loopvars, a, p, x, env, free, s, m);
    } else {
      OffPathSibling(g, loopvars, a, p, x, env, free, s, m);
    }
  }

  /** The loops around `p` are in their current iteration. */
  ghost predicate AroundIsCurrent(g: Tables, p: string, env: string -> int, s: State)
    requires p in g.containing
  {
    CurrentUpTo(g.containing[p], |g.containing[p]|, env, s)
  }

  lemma OffPathSibling(g: Tables, loopvars: set<string>, a: string, p: string, x: string, env: string -> int,
                       free: bool, s: State, m: Model)
    requires Setup(g, loopvars) && p in g.loops && x in g.loops && g.loops[p] !in PathOf(g, x)
    requires free || g.loops[x] in g.containing[p] ==> WritesAlone(g, a, x)
    ensures IterVar(g.loops[p]) in g.nesting
    ensures !Describes(g, SiblingClause(g, IterVar(g.loops[p])), a, x, env, free, s, m)
  {
    hide LoopKey, WellFormedTables, IsNesting, ProgramTables, OutputsOf, Within, WritesAlone;
    InTables(g);
    SiblingRanges(g, loopvars, p, x);
    var q := PathOf(g, x);
    assert q[|q| - 1] == g.loops[x];
    if free || g.loops[x] in g.containing[p] { OffPathUnlisted(g, a, x, p); }
  }

  lemma OnPathSibling(g: Tables, loopvars: set<string>, a: string, p: string, x: string, env: string -> int,
                      free: bool, s: State, m: Model)
    requires Setup(g, loopvars) && Standard(m) && p in g.loops && x in g.loops && g.loops[p] in PathOf(g, x)
    requires IntsAround(g.containing[p], s) && IsIteration(g, x, env, s, m)
    ensures IterVar(g.loops[p]) in g.nesting
    ensures Describes(g, SiblingClause(g, IterVar(g.loops[p])), a, x, env, free, s, m)
      <==> (x == p || free) && a in OutputsOf(g, IterVar(g.loops[p])) && AroundIsCurrent(g, p, env, s)
  {
    hide LoopKey, WellFormedTables, IsNesting, ProgramTables, OutputsOf, Within, Standard, PathOf, Eval,
      SiblingClause, IntsAround, IsIteration;
    InTables(g);
    var q := PathOf(g, x);
    var e :| 0 <= e < |q| && q[e] == g.loops[p];
    var c := SiblingClause(g, IterVar(g.loops[p]));
    SiblingOutputs(g, IterVar(g.loops[p]));
    PathFacts(g, loopvars, x, e);
    OwnKey(g, loopvars, p);
    LastOnPath(g, loopvars, p, x, e);
    forall b | 0 <= b < |q|
      ensures IterVar(q[b]) in c.ranges <==> b <= e
      ensures b <= e ==> (Within(c.ranges[IterVar(q[b])], env(IterVar(q[b])), s, m)
          <==> (b < e ==> env(IterVar(q[b])) == Now(IterVar(q[b]), s)))
    {
      SiblingRange(g, loopvars, p, x, e, b, env, s, m);
    }
    assert forall b | 0 <= b < e :: g.containing[p][b] == q[b];
    assert forall b | 0 <= b < e :: IterVar(q[b]) == IterVar(g.containing[p][b]);
  }

  lemma SiblingOutputs(g: Tables, v: string)
    requires WellFormedTables(g) && v in g.nesting
    ensures SiblingClause(g, v).outputs == OutputsOf(g, v)
  {
    hide WellFormedTables;
  }

  lemma LastOnPath(g: Tables, loopvars: set<string>, p: string, x: string, e: nat)
    requires Setup(g, loopvars) && p in g.loops && x in g.loops && e < |PathOf(g, x)| && PathOf(g, x)[e] == g.loops[p]
    ensures x == p <==> e == |PathOf(g, x)| - 1
  {
    hide LoopKey, WellFormedTables, IsNesting, ProgramTables;
    InTables(g);
    ParentsApart(g, loopvars, x, p);
    ParentsApart(g, loopvars, x, x);
    var q := PathOf(g, x);
    if e < |q| - 1 { assert g.containing[x][e] == q[e]; }
  }

  lemma SiblingRange(g: Tables, loopvars: set<string>, p: string, x: string, e: nat, b: nat, env: string -> int,
                     s: State, m: Model)
    requires Setup(g, loopvars) && Standard(m) && p in g.loops && x in g.loops
    requires e < |PathOf(g, x)| && b < |PathOf(g, x)| && PathOf(g, x)[e] == g.loops[p]
    requires IntsAround(g.containing[p], s) && IsIteration(g, x, env, s, m)
    ensures IterVar(g.loops[p]) in g.nesting
    ensures var q := PathOf(g, x);
      var c, v := SiblingClause(g, IterVar(g.loops[p])), IterVar(q[b]);
      && (v in c.ranges <==> b <= e)
      && (b <= e ==> (Within(c.ranges[v], env(v), s, m) <==> (b < e ==> env(v) == Now(v, s))))
  {
    hide LoopKey, Setup, WellFormedTables, SiblingClause, Standard, PathOf, Eval, Current, IsIteration;
    SetupTables(g, loopvars);
    OwnKey(g, loopvars, p);
    var q := PathOf(g, x);
    OnPath(g, loopvars, x, b, env, s, m);
    PathPlaces(g, loopvars, x, e, b);
    PathFacts(g, loopvars, x, e);
    var v := IterVar(q[b]);
    SiblingRanges(g, loopvars, p, LoopKey(q[b]));
    if b <= e { InFront(q, e, b); }
    if b < e {
      assert g.containing[p][b] == q[b];
      CurrentWithin(v, env(v), s, m);
    }
  }

  lemma InFront(q: seq<Stmt>, e: nat, b: nat)
    requires e < |q| && b <= e
    ensures q[b] in q[..e + 1]
  {
    assert q[..e + 1][b] == q[b];
  }

  lemma OwnKey(g: Tables, loopvars: set<string>, x: string)
    requires Setup(g, loopvars) && x in g.loops
    ensures x in g.containing && LoopKey(g.loops[x]) == x && IterVar(g.loops[x]) in g.nesting
  {
    hide LoopKey, WellFormedTables, IsNesting, Flatten;
    InTables(g);
    ParentsKnown(g);
  }

  // ----- the clauses reached at the head of a loop -----

  lemma CallsOf(g: Tables, infos: map<string, Info>, previous: map<string, seq<string>>, key: string)
    requires WellFormedTables(g) && GeneratedInfos(g, infos, previous) && key in g.loops
    ensures key in infos && infos.Keys == g.loops.Keys
    ensures infos[key].invariantsToCall
      == if g.containing[key] == [] then [] else [LoopKey(g.containing[key][|g.containing[key]| - 1])]
  {
    hide LoopKey, SiblingClause, CurrentClause, StandsBefore;
  }

  /** Through the calls a loop reaches the clauses of all loops on its path. */
  lemma {:induction false} ReachedOnPath(g: Tables, loopvars: set<string>, infos: map<string, Info>,
                                         previous: map<string, seq<string>>, here: string, fuel: nat, c: Clause)
    requires Setup(g, loopvars) && GeneratedInfos(g, infos, previous) && here in g.loops && fuel > |g.containing[here]|
    ensures c in Reached(infos, here, fuel) <==> exists j | 0 <= j < |PathOf(g, here)| :: InInfo(g, infos, here, j, c)
    decreases |g.containing[here]|
  {
    hide LoopKey, Reached, ReachedAll, WellFormedTables, GeneratedInfos, IsNesting, ProgramTables, PathOf, InInfo;
    InTables(g);
    CallsOf(g, infos, previous, here);
    ReachedStep(infos, here, fuel);
    ParentPath(g, here);
    var path := PathOf(g, here);
    LastInfo(g, infos, here, c);
    if g.containing[here] != [] {
      var p := LoopKey(g.containing[here][|g.containing[here]| - 1]);
      ReachedOnPath(g, loopvars, infos, previous, p, fuel - 1, c);
      forall j | 0 <= j < |path| - 1 ensures InInfo(g, infos, here, j, c) == InInfo(g, infos, p, j, c) {
        SameInfo(g, infos, here, p, j, c);
      }
    }
  }

  /** The clause belongs to the invariant of the loop at place `j` of the path. */
  ghost predicate InInfo(g: Tables, infos: map<string, Info>, here: string, j: nat, c: Clause)
    requires here in g.loops && here in g.containing && j < |PathOf(g, here)|
  {
    LoopKey(PathOf(g, here)[j]) in infos && c in infos[LoopKey(PathOf(g, here)[j])].clauses
  }

  lemma LastInfo(g: Tables, infos: map<string, Info>, here: string, c: Clause)
    requires here in g.loops && here in g.containing && LoopKey(g.loops[here]) == here && here in infos
    ensures InInfo(g, infos, here, |PathOf(g, here)| - 1, c) <==> c in infos[here].clauses
  {
    hide LoopKey;
  }

  lemma SameInfo(g: Tables, infos: map<string, Info>, here: string, p: string, j: nat, c: Clause)
    requires here in g.loops && here in g.containing && p in g.loops && p in g.containing
    requires PathOf(g, p) == g.containing[here] && j < |g.containing[here]|
    ensures InInfo(g, infos, here, j, c) == InInfo(g, infos, p, j, c)
  {
    hide LoopKey;
  }

  /** The clauses of one invariant. */
  lemma ClausesOf(g: Tables, infos: map<string, Info>, previous: map<string, seq<string>>, key: string, c: Clause)
    requires WellFormedTables(g) && GeneratedInfos(g, infos, previous) && key in g.loops
    ensures c in infos[key].clauses <==>
      || c == CurrentClause(g, key)
      || exists i | i in g.loops :: IsEarlierSibling(g, i, key) && c == SiblingClause(g, IterVar(g.loops[i]))
  {
    hide LoopKey, WellFormedTables, SiblingClause, CurrentClause, StandsBefore;
    InTables(g);
    var ps := previous[key];
    var cs := seq(|ps|, i requires 0 <= i < |ps| => SiblingClause(g, IterVar(g.loops[ps[i]])));
    if i :| i in ps && c == SiblingClause(g, IterVar(g.loops[i])) {
      var j :| 0 <= j < |ps| && ps[j] == i;
      assert cs[j] == c;
    }
  }

  ghost predicate IsEarlierSibling(g: Tables, i: string, key: string)
    requires WellFormedTables(g) && i in g.loops && key in g.loops
  {
    g.containing[key] != [] && StandsBefore(g, i, key)
  }

  // ----- the theorem -----

  /** In the body of a common loop: in a loop beside, or, when a variable without a range rules a
      clause out, only a loop directly beside. */
  predicate InView(g: Tables, x: string, here: string, free: bool)
    requires WellFormedTables(g) && x in g.loops && here in g.loops
  {
    0 < Meet(g, x, here) && (free || |PathOf(g, x)| == Meet(g, x, here) + 1)
  }

  /** Some reached clause about the array describes the iteration. */
  ghost predicate IsDescribed(g: Tables, infos: map<string, Info>, a: string, x: string, here: string,
                              env: string -> int, free: bool, s: State, m: Model)
    requires WellFormedTables(g) && x in g.loops && here in g.loops
  {
    exists c | c in Reached(infos, here, |g.containing[here]| + 1) :: Describes(g, c, a, x, env, free, s, m)
  }

  /** What all the results below assume: an array and an iteration of a loop `x`. Where a clause
      could otherwise speak about the writes of another loop, only `x` writes the array. */
  ghost predicate Scene(g: Tables, loopvars: set<string>, infos: map<string, Info>, previous: map<string, seq<string>>,
                        a: string, x: string, here: string, env: string -> int, free: bool, s: State, m: Model)
  {
    && Setup(g, loopvars) && GeneratedInfos(g, infos, previous) && Standard(m)
    && x in g.loops && here in g.loops
    && (free || g.loops[x] in g.containing[here] ==> WritesAlone(g, a, x))
    && IntsAround(g.containing[here], s) && IsIteration(g, x, env, s, m)
  }

  /** Moreover `x` writes the array at an index over the variables of its path. */
  ghost predicate Situation(g: Tables, loopvars: set<string>, infos: map<string, Info>,
                            previous: map<string, seq<string>>,
                            a: string, x: string, here: string, env: string -> int, free: bool, s: State, m: Model)
  {
    Scene(g, loopvars, infos, previous, a, x, here, env, free, s, m) && Writes(g, a, x)
  }

  /** The iteration belongs to an earlier iteration of one of the first `n` loops, and the clause
      of that loop lists the array. */
  ghost predicate EarlierListed(g: Tables, a: string, path: seq<Stmt>, n: nat, env: string -> int, s: State)
    requires n <= |path|
  {
    exists j | 0 <= j < n ::
      && CurrentUpTo(path, j, env, s) && env(IterVar(path[j])) < Now(IterVar(path[j]), s)
      && a in OutputsOf(g, IterVar(path[j]))
  }

  /** The iteration belongs to the current ones of the common loops, in an earlier branch in view,
      and the clause of that branch lists the array. */
  ghost predicate BranchListed(g: Tables, a: string, x: string, here: string, env: string -> int, free: bool, s: State)
    requires WellFormedTables(g) && x in g.loops && here in g.loops
  {
    var p, q, d := PathOf(g, here), PathOf(g, x), Meet(g, x, here);
    && CurrentUpTo(p, d, env, s) && EarlierBranch(g, x, here) && InView(g, x, here, free)
    && a in OutputsOf(g, IterVar(q[d]))
  }

  /** The reached clauses about any array, whatever the variables in the index at which it is
      written: exactly two kinds of iterations are described. */
  lemma DescribedIff(g: Tables, loopvars: set<string>, infos: map<string, Info>, previous: map<string, seq<string>>,
                     a: string, x: string, here: string, env: string -> int, free: bool, s: State, m: Model)
    requires Scene(g, loopvars, infos, previous, a, x, here, env, free, s, m)
    ensures IsDescribed(g, infos, a, x, here, env, free, s, m) <==>
      || EarlierListed(g, a, PathOf(g, here), Meet(g, x, here), env, s)
      || BranchListed(g, a, x, here, env, free, s)
  {
    hide LoopKey, Setup, WellFormedTables, GeneratedInfos, Standard, Reached, Describes, PathOf, Meet, EarlierListed,
      BranchListed, WritesAlone, IntsAround, IsIteration;
    SetupTables(g, loopvars);
    OwnKey(g, loopvars, x);
    OwnKey(g, loopvars, here);
    if c :| c in Reached(infos, here, |g.containing[here]| + 1) && Describes(g, c, a, x, env, free, s, m) {
      DescribedIsExecuted(g, loopvars, infos, previous, a, x, here, c, env, free, s, m);
    }
    if EarlierListed(g, a, PathOf(g, here), Meet(g, x, here), env, s) {
      EarlierIsDescribed(g, loopvars, infos, previous, a, x, here, env, free, s, m);
    }
    if BranchListed(g, a, x, here, env, free, s) {
      BranchIsDescribed(g, loopvars, infos, previous, a, x, here, env, free, s, m);
    }
  }

  /** An iteration of an earlier iteration of a common loop is described exactly when the array's
      index mentions the variable of the outermost such loop. */
  lemma ListedWhereItDiffers(g: Tables, loopvars: set<string>, infos: map<string, Info>,
                             previous: map<string, seq<string>>, a: string, x: string, here: string, j: nat,
                             env: string -> int, free: bool, s: State, m: Model)
    requires Scene(g, loopvars, infos, previous, a, x, here, env, free, s, m) && j < Meet(g, x, here)
    requires CurrentUpTo(PathOf(g, here), j, env, s)
    requires env(IterVar(PathOf(g, here)[j])) < Now(IterVar(PathOf(g, here)[j]), s)
    ensures Executed(g, x, here, env, s)
    ensures IsDescribed(g, infos, a, x, here, env, free, s, m) <==> a in OutputsOf(g, IterVar(PathOf(g, here)[j]))
  {
    hide LoopKey, Setup, WellFormedTables, GeneratedInfos, Standard, Reached, IsDescribed, PathOf, Meet, OutputsOf,
      WritesAlone, IntsAround, IsIteration, EarlierBranch, InView, IterVar;
    SetupTables(g, loopvars);
    DescribedIff(g, loopvars, infos, previous, a, x, here, env, free, s, m);
    var p, d := PathOf(g, here), Meet(g, x, here);
    forall i | 0 <= i < d && CurrentUpTo(p, i, env, s) && env(IterVar(p[i])) < Now(IterVar(p[i]), s) ensures i == j {
      FirstDifference(p, i, j, env, s);
    }
  }

  lemma FirstDifference(p: seq<Stmt>, i: nat, j: nat, env: string -> int, s: State)
    requires i < |p| && j < |p| && CurrentUpTo(p, i, env, s) && CurrentUpTo(p, j, env, s)
    requires env(IterVar(p[i])) < Now(IterVar(p[i]), s) && env(IterVar(p[j])) < Now(IterVar(p[j]), s)
    ensures i == j
  {
  }

  /** At the head of any loop, the reached clauses about an array describe exactly those executed
      iterations of a loop writing it that belong to an earlier iteration of a common loop, or
      to an earlier branch in view. */
  lemma DescribedExactly(g: Tables, loopvars: set<string>, infos: map<string, Info>, previous: map<string, seq<string>>,
                         a: string, x: string, here: string, env: string -> int, free: bool, s: State, m: Model)
    requires Situation(g, loopvars, infos, previous, a, x, here, env, free, s, m)
    ensures IsDescribed(g, infos, a, x, here, env, free, s, m) <==>
      && Executed(g, x, here, env, s)
      && (EarlierWithin(PathOf(g, here), Meet(g, x, here), env, s) || InView(g, x, here, free))
  {
    hide LoopKey, Setup, WellFormedTables, GeneratedInfos, Standard, Reached, IsDescribed, PathOf, Meet, CurrentUpTo,
      Writes, WritesAlone, IntsAround, IsIteration, OutputsOf, StandsBefore, IterVar;
    SetupTables(g, loopvars);
    DescribedIff(g, loopvars, infos, previous, a, x, here, env, free, s, m);
    OwnKey(g, loopvars, x);
    OwnKey(g, loopvars, here);
    var p, q, d := PathOf(g, here), PathOf(g, x), Meet(g, x, here);
    forall j | 0 <= j < |q| ensures a in OutputsOf(g, IterVar(q[j])) { OnPathListed(g, loopvars, a, x, j); }
    forall j | 0 <= j < d ensures p[j] == q[j] { SharedPart(g, loopvars, x, here, j); }
  }

  lemma EarlierIsDescribed(g: Tables, loopvars: set<string>, infos: map<string, Info>,
                           previous: map<string, seq<string>>,
                           a: string, x: string, here: string, env: string -> int, free: bool, s: State, m: Model)
    requires Scene(g, loopvars, infos, previous, a, x, here, env, free, s, m)
    requires EarlierListed(g, a, PathOf(g, here), Meet(g, x, here), env, s)
    ensures IsDescribed(g, infos, a, x, here, env, free, s, m)
  {
    hide LoopKey, Setup, WellFormedTables, GeneratedInfos, Standard, Reached, Describes, PathOf, Meet, CurrentUpTo,
      IntsAround, WritesAlone, IsIteration, IterVar, CurrentClause, SiblingClause, IsEarlierSibling, OutputsOf;
    SetupTables(g, loopvars);
    OwnKey(g, loopvars, x);
    OwnKey(g, loopvars, here);
    var p, d := PathOf(g, here), Meet(g, x, here);
    var j :| 0 <= j < d && CurrentUpTo(p, j, env, s) && env(IterVar(p[j])) < Now(IterVar(p[j]), s)
      && a in OutputsOf(g, IterVar(p[j]));
    SharedPart(g, loopvars, x, here, j);
    PathClauseDescribes(g, loopvars, a, x, j, env, free, s, m);
    Branch(g, loopvars, here, j);
    var c := CurrentClause(g, LoopKey(p[j]));
    InfosOf(g, loopvars, infos, previous, LoopKey(p[j]), c);
    OnThePath(g, loopvars, infos, previous, here, j, c);
  }

  /** Up to where the paths meet they are the same. */
  lemma SharedPart(g: Tables, loopvars: set<string>, x: string, here: string, j: nat)
    requires Setup(g, loopvars) && x in g.loops && here in g.loops && j < Meet(g, x, here)
    ensures PathOf(g, here)[j] == PathOf(g, x)[j] && PathOf(g, here)[..j] == PathOf(g, x)[..j]
    ensures j <= |g.containing[here]| && PathOf(g, x)[..j] == g.containing[here][..j]
    ensures forall env, s :: CurrentUpTo(PathOf(g, here), j, env, s) <==> CurrentUpTo(PathOf(g, x), j, env, s)
    ensures forall s | IntsAround(g.containing[here], s) :: IntsAround(PathOf(g, x)[..j], s)
  {
    hide LoopKey, WellFormedTables, IsNesting, ProgramTables, Shared, PathOf, CurrentUpTo, IntsAround;
    InTables(g);
    var p, q, con := PathOf(g, here), PathOf(g, x), g.containing[here];
    SameFront(p, q, Meet(g, x, here), j);
    assert con == p[..|p| - 1];
    FrontPart(p, j);
    forall env: string -> int, s: State ensures CurrentUpTo(p, j, env, s) <==> CurrentUpTo(q, j, env, s) {
      CurrentAlike(p, q, j, env, s);
    }
    forall s | IntsAround(con, s) ensures IntsAround(q[..j], s) { FrontInts(con, j, s); }
  }

  lemma SameFront(p: seq<Stmt>, q: seq<Stmt>, d: nat, j: nat)
    requires d <= |p| && d <= |q| && p[..d] == q[..d] && j < d
    ensures p[j] == q[j] && p[..j] == q[..j]
  {
    assert p[..d][..j] == p[..j] && q[..d][..j] == q[..j];
    assert p[..d][j] == p[j] && q[..d][j] == q[j];
  }

  lemma CurrentAlike(p: seq<Stmt>, q: seq<Stmt>, j: nat, env: string -> int, s: State)
    requires j <= |p| && j <= |q| && p[..j] == q[..j]
    ensures CurrentUpTo(p, j, env, s) <==> CurrentUpTo(q, j, env, s)
  {
    hide IterVar;
    assert forall b | 0 <= b < j :: p[..j][b] == p[b] && q[..j][b] == q[b];
  }

  /** The current clause of a loop on the path is reached. */
  lemma OnThePath(g: Tables, loopvars: set<string>, infos: map<string, Info>, previous: map<string, seq<string>>,
                  here: string, j: nat, c: Clause)
    requires Setup(g, loopvars) && GeneratedInfos(g, infos, previous) && here in g.loops && j < |PathOf(g, here)|
    requires LoopKey(PathOf(g, here)[j]) in infos && c in infos[LoopKey(PathOf(g, here)[j])].clauses
    ensures c in Reached(infos, here, |g.containing[here]| + 1)
  {
    hide LoopKey, WellFormedTables, Reached, PathOf, IsNesting, ProgramTables;
    InTables(g);
    PathFacts(g, loopvars, here, j);
    ReachedOnPath(g, loopvars, infos, previous, here, |g.containing[here]| + 1, c);
    assert InInfo(g, infos, here, j, c);
  }

  lemma BranchIsDescribed(g: Tables, loopvars: set<string>, infos: map<string, Info>,
                          previous: map<string, seq<string>>,
                          a: string, x: string, here: string, env: string -> int, free: bool, s: State, m: Model)
    requires Scene(g, loopvars, infos, previous, a, x, here, env, free, s, m)
    requires BranchListed(g, a, x, here, env, free, s)
    ensures IsDescribed(g, infos, a, x, here, env, free, s, m)
  {
    hide LoopKey, Setup, WellFormedTables, GeneratedInfos, Standard, Reached, Describes, PathOf, Meet, CurrentUpTo,
      WritesAlone, IsIteration, IterVar, SiblingClause, StandsBefore, IntsAround, OutputsOf;
    SetupTables(g, loopvars);
    OwnKey(g, loopvars, x);
    OwnKey(g, loopvars, here);
    var p, q, d := PathOf(g, here), PathOf(g, x), Meet(g, x, here);
    var k, i := LoopKey(p[d]), LoopKey(q[d]);
    SharedFront(g, loopvars, x, here, env, s);
    Branch(g, loopvars, here, d);
    Branch(g, loopvars, x, d);
    LastOnPath(g, loopvars, i, x, d);
    CurrentAround(g, loopvars, x, d, env, s);
    SiblingInScene(g, loopvars, infos, previous, a, x, here, d, i, env, free, s, m);
    SiblingClauseDescribes(g, loopvars, a, i, x, env, free, s, m);
    var c := SiblingClause(g, IterVar(g.loops[i]));
    InfosOf(g, loopvars, infos, previous, k, c);
    assert IsEarlierSibling(g, i, k);
    OnThePath(g, loopvars, infos, previous, here, d, c);
  }

  /** The loops around place `d` of a path are current when the path is up to there. */
  lemma CurrentAround(g: Tables, loopvars: set<string>, x: string, d: nat, env: string -> int, s: State)
    requires Setup(g, loopvars) && x in g.loops && d < |PathOf(g, x)|
    ensures var i := LoopKey(PathOf(g, x)[d]);
      && i in g.loops && i in g.containing
      && (AroundIsCurrent(g, i, env, s) <==> CurrentUpTo(PathOf(g, x), d, env, s))
  {
    hide LoopKey, WellFormedTables, IsNesting, ProgramTables, IterVar;
    InTables(g);
    Branch(g, loopvars, x, d);
    var q := PathOf(g, x);
    var i := LoopKey(q[d]);
    assert |g.containing[i]| == d && forall b | 0 <= b < d :: g.containing[i][b] == q[..d][b] == q[b];
  }

  /** A loop beside a loop on the path of `here` may have its clause read for `x`. */
  lemma SiblingInScene(g: Tables, loopvars: set<string>, infos: map<string, Info>, previous: map<string, seq<string>>,
                       a: string, x: string, here: string, j: nat, i: string, env: string -> int, free: bool,
                       s: State, m: Model)
    requires Scene(g, loopvars, infos, previous, a, x, here, env, free, s, m) && j < |PathOf(g, here)|
    requires i in g.loops && i in g.containing && g.containing[i] == PathOf(g, here)[..j]
    ensures free || g.loops[x] in g.containing[i] ==> WritesAlone(g, a, x)
    ensures IntsAround(g.containing[i], s)
  {
    hide LoopKey, Setup, WellFormedTables, GeneratedInfos, Standard, WritesAlone, IsIteration, IterVar;
    OwnKey(g, loopvars, here);
    Branch(g, loopvars, here, j);
    FrontInts(g.containing[here], j, s);
    if g.loops[x] in g.containing[i] {
      var b :| 0 <= b < j && g.containing[here][..j][b] == g.loops[x];
      assert g.containing[here][b] == g.loops[x];
    }
  }

  /** The whole common part: the same in both paths. */
  lemma SharedFront(g: Tables, loopvars: set<string>, x: string, here: string, env: string -> int, s: State)
    requires Setup(g, loopvars) && x in g.loops && here in g.loops
    ensures var p, q, d := PathOf(g, here), PathOf(g, x), Meet(g, x, here);
      && d <= |p| && d <= |q| && p[..d] == q[..d]
      && (d < |p| && d < |q| ==> p[d] != q[d])
      && (CurrentUpTo(p, d, env, s) <==> CurrentUpTo(q, d, env, s))
      && (d < |p| && IntsAround(g.containing[here], s) ==> IntsAround(p[..d], s))
  {
    hide LoopKey, WellFormedTables, IsNesting, ProgramTables, Shared;
    InTables(g);
    var p, q, d := PathOf(g, here), PathOf(g, x), Meet(g, x, here);
    assert forall b | 0 <= b < d :: p[..d][b] == p[b] && q[..d][b] == q[b];
  }

  /** The loop at place `j` of a path, under its key. */
  lemma Branch(g: Tables, loopvars: set<string>, here: string, j: nat)
    requires Setup(g, loopvars) && here in g.loops && j < |PathOf(g, here)|
    ensures var w := PathOf(g, here)[j];
      && LoopKey(w) in g.loops && LoopKey(w) in g.containing && g.loops[LoopKey(w)] == w
      && g.containing[LoopKey(w)] == PathOf(g, here)[..j] && IterVar(w) in g.nesting
      && j <= |g.containing[here]| && PathOf(g, here)[..j] == g.containing[here][..j]
  {
    hide LoopKey, WellFormedTables, IsNesting, ProgramTables;
    InTables(g);
    PathFacts(g, loopvars, here, j);
  }

  lemma InfosOf(g: Tables, loopvars: set<string>, infos: map<string, Info>, previous: map<string, seq<string>>,
                key: string, c: Clause)
    requires Setup(g, loopvars) && GeneratedInfos(g, infos, previous) && key in g.loops
    ensures key in infos
    ensures c in infos[key].clauses <==>
      || c == CurrentClause(g, key)
      || exists i | i in g.loops :: IsEarlierSibling(g, i, key) && c == SiblingClause(g, IterVar(g.loops[i]))
  {
    hide LoopKey, WellFormedTables, SiblingClause, CurrentClause, StandsBefore, IsNesting, ProgramTables;
    CallsOf(g, infos, previous, key);
    ClausesOf(g, infos, previous, key, c);
  }

  lemma DescribedIsExecuted(g: Tables, loopvars: set<string>, infos: map<string, Info>,
                            previous: map<string, seq<string>>, a: string, x: string, here: string, c: Clause,
                            env: string -> int, free: bool, s: State, m: Model)
    requires Scene(g, loopvars, infos, previous, a, x, here, env, free, s, m)
    requires c in Reached(infos, here, |g.containing[here]| + 1) && Describes(g, c, a, x, env, free, s, m)
    ensures
      || EarlierListed(g, a, PathOf(g, here), Meet(g, x, here), env, s)
      || BranchListed(g, a, x, here, env, free, s)
  {
    hide LoopKey, Setup, WellFormedTables, GeneratedInfos, Standard, Reached, Describes, PathOf, Meet, BranchListed,
      EarlierListed, WritesAlone, IsIteration, IterVar, SiblingClause, CurrentClause, StandsBefore, IntsAround, InInfo,
      IsEarlierSibling;
    SetupTables(g, loopvars);
    OwnKey(g, loopvars, here);
    OwnKey(g, loopvars, x);
    ReachedOnPath(g, loopvars, infos, previous, here, |g.containing[here]| + 1, c);
    var j :| 0 <= j < |PathOf(g, here)| && InInfo(g, infos, here, j, c);
    var k := LoopKey(PathOf(g, here)[j]);
    Branch(g, loopvars, here, j);
    InfoAt(g, infos, here, j, c);
    InfosOf(g, loopvars, infos, previous, k, c);
    if c == CurrentClause(g, k) {
      CurrentCase(g, loopvars, infos, previous, a, x, here, j, env, free, s, m);
    } else {
      var i :| i in g.loops && IsEarlierSibling(g, i, k) && c == SiblingClause(g, IterVar(g.loops[i]));
      SiblingCase(g, loopvars, infos, previous, a, x, here, j, i, env, free, s, m);
    }
  }

  lemma SetupTables(g: Tables, loopvars: set<string>)
    requires Setup(g, loopvars)
    ensures WellFormedTables(g) && g.containing.Keys == g.loops.Keys
    ensures forall k | k in g.loops :: IterVar(g.loops[k]) in g.nesting
  {
    hide LoopKey, WellFormedTables, IsNesting, ProgramTables;
    InTables(g);
  }

  lemma InfoAt(g: Tables, infos: map<string, Info>, here: string, j: nat, c: Clause)
    requires here in g.loops && here in g.containing && j < |PathOf(g, here)| && InInfo(g, infos, here, j, c)
    ensures var k := LoopKey(PathOf(g, here)[j]); k in infos && c in infos[k].clauses
  {
    hide LoopKey;
  }

  lemma CurrentCase(g: Tables, loopvars: set<string>, infos: map<string, Info>, previous: map<string, seq<string>>,
                    a: string, x: string, here: string, j: nat, env: string -> int, free: bool, s: State, m: Model)
    requires Scene(g, loopvars, infos, previous, a, x, here, env, free, s, m) && j < |PathOf(g, here)|
    requires LoopKey(PathOf(g, here)[j]) in g.loops
    requires Describes(g, CurrentClause(g, LoopKey(PathOf(g, here)[j])), a, x, env, free, s, m)
    ensures EarlierListed(g, a, PathOf(g, here), Meet(g, x, here), env, s)
  {
    hide LoopKey, Setup, WellFormedTables, GeneratedInfos, Standard, Describes, PathOf, WritesAlone, OutputsOf,
      IsIteration, IterVar, CurrentClause, Shared, IntsAround, CurrentUpTo;
    SetupTables(g, loopvars);
    OwnKey(g, loopvars, here);
    OwnKey(g, loopvars, x);
    var p, d := PathOf(g, here), Meet(g, x, here);
    OnlySharedOnBoth(g, loopvars, here, x, j);
    Branch(g, loopvars, here, j);
    if j < d {
      SharedPart(g, loopvars, x, here, j);
      PathClauseDescribes(g, loopvars, a, x, j, env, free, s, m);
    } else {
      SiblingInScene(g, loopvars, infos, previous, a, x, here, j, LoopKey(p[j]), env, free, s, m);
      OffPathSilent(g, loopvars, a, x, LoopKey(p[j]), env, free, s, m);
    }
  }

  lemma SiblingCase(g: Tables, loopvars: set<string>, infos: map<string, Info>, previous: map<string, seq<string>>,
                    a: string, x: string, here: string, j: nat, i: string, env: string -> int, free: bool, s: State,
                    m: Model)
    requires Scene(g, loopvars, infos, previous, a, x, here, env, free, s, m)
    requires j < |PathOf(g, here)| && i in g.loops
    requires var k := LoopKey(PathOf(g, here)[j]); k in g.loops && IsEarlierSibling(g, i, k)
    requires IterVar(g.loops[i]) in g.nesting
    requires Describes(g, SiblingClause(g, IterVar(g.loops[i])), a, x, env, free, s, m)
    ensures BranchListed(g, a, x, here, env, free, s)
  {
    hide LoopKey, Setup, WellFormedTables, GeneratedInfos, Standard, Describes, PathOf, WritesAlone, OutputsOf,
      IsIteration, IterVar, SiblingClause, IntsAround, StandsBefore, Meet, CurrentUpTo, AroundIsCurrent;
    SetupTables(g, loopvars);
    OwnKey(g, loopvars, here);
    OwnKey(g, loopvars, x);
    OwnKey(g, loopvars, i);
    var p, q := PathOf(g, here), PathOf(g, x);
    var k := LoopKey(p[j]);
    Branch(g, loopvars, here, j);
    BesideBranch(g, loopvars, i, k);
    SiblingInScene(g, loopvars, infos, previous, a, x, here, j, i, env, free, s, m);
    SiblingClauseDescribes(g, loopvars, a, i, x, env, free, s, m);
    MeetBeside(g, loopvars, x, here, i, j);
    LastOnPath(g, loopvars, i, x, j);
    SharedFront(g, loopvars, x, here, env, s);
    CurrentAround(g, loopvars, x, j, env, s);
  }

  lemma FrontInts(con: seq<Stmt>, j: nat, s: State)
    requires IntsAround(con, s) && j <= |con|
    ensures IntsAround(con[..j], s)
  {
  }

  lemma BesideBranch(g: Tables, loopvars: set<string>, i: string, k: string)
    requires Setup(g, loopvars) && i in g.loops && k in g.loops && IsEarlierSibling(g, i, k)
    ensures i in g.containing && g.containing[i] == g.containing[k] && g.loops[i] != g.loops[k] && g.containing[k] != []
  {
    hide LoopKey, WellFormedTables, IsNesting, ProgramTables, BlockOf;
    InTables(g);
    SameBlockSameAround(g, i, k);
  }

  lemma SharedAt(p: seq<Stmt>, q: seq<Stmt>, j: nat)
    requires j < Shared(p, q)
    ensures p[j] == q[j]
  {
    hide Shared;
    var d := Shared(p, q);
    assert p[..d][j] == p[j] && q[..d][j] == q[j];
  }

  /** A loop that is or lies in a loop beside place `j` of the path meets it there. */
  lemma MeetBeside(g: Tables, loopvars: set<string>, x: string, here: string, i: string, j: nat)
    requires Setup(g, loopvars) && x in g.loops && here in g.loops && i in g.loops && j < |PathOf(g, here)|
    requires i in g.containing && g.containing[i] == PathOf(g, here)[..j] && PathOf(g, here)[j] != g.loops[i]
    requires g.loops[i] in PathOf(g, x)
    ensures Meet(g, x, here) == j && j < |PathOf(g, x)| && PathOf(g, x)[j] == g.loops[i]
  {
    hide LoopKey, WellFormedTables, IsNesting, ProgramTables, PathOf, Shared;
    InTables(g);
    var p, q := PathOf(g, here), PathOf(g, x);
    var e :| 0 <= e < |q| && q[e] == g.loops[i];
    var r := PathOf(g, i);
    OnBothPaths(g, loopvars, i, x, |r| - 1, e);
    assert r[..|r| - 1] == p[..j];
    var d := Shared(p, q);
    assert q[..j] == p[..j];
    if j > 0 { SharedSoFar(p, q, j - 1); }
    if j < d { SharedAt(p, q, j); }
  }

  // ----- which loops are described in full -----

  /** The current values of the loops around lie within their bounds, and loop `x` and those
      around it have at least one iteration. */
  ghost predicate Running(g: Tables, x: string, here: string, s: State, m: Model)
    requires WellFormedTables(g) && x in g.loops && here in g.loops
  {
    && (forall b | 0 <= b < Meet(g, x, here) && IterVar(PathOf(g, here)[b]) in g.nesting ::
          Within(FullRange(g, IterVar(PathOf(g, here)[b])), Now(IterVar(PathOf(g, here)[b]), s), s, m))
    && (forall v | v in g.nesting :: Within(FullRange(g, v), IntOf(Eval(g.mins[v], s, m)), s, m))
  }

  /** Every executed iteration of a loop is described if and only if the loop is in no earlier
      branch, or in view: an earlier loop of the outermost block is missed, and a loop nested
      inside an earlier sibling is when its variables, which have no range, are not left free. */
  lemma AllDescribedIff(g: Tables, loopvars: set<string>, infos: map<string, Info>, previous: map<string, seq<string>>,
                        a: string, x: string, here: string, free: bool, s: State, m: Model)
    requires Setup(g, loopvars) && GeneratedInfos(g, infos, previous) && Standard(m) && x in g.loops && here in g.loops
    requires Writes(g, a, x) && (free || g.loops[x] in g.containing[here] ==> WritesAlone(g, a, x))
    requires IntsAround(g.containing[here], s) && Running(g, x, here, s, m)
    ensures (forall env | IsIteration(g, x, env, s, m) && Executed(g, x, here, env, s) ::
        IsDescribed(g, infos, a, x, here, env, free, s, m))
      <==> (EarlierBranch(g, x, here) ==> InView(g, x, here, free))
  {
    hide LoopKey, Setup, WellFormedTables, GeneratedInfos, Standard, Reached, PathOf, Meet, CurrentUpTo, EarlierWithin,
      EarlierBranch, InView, Writes, WritesAlone, IntsAround, IsIteration, IsDescribed, Running;
    SetupTables(g, loopvars);
    forall env | IsIteration(g, x, env, s, m)
      ensures IsDescribed(g, infos, a, x, here, env, free, s, m) <==>
        && Executed(g, x, here, env, s)
        && (EarlierWithin(PathOf(g, here), Meet(g, x, here), env, s) || InView(g, x, here, free))
    {
      DescribedExactly(g, loopvars, infos, previous, a, x, here, env, free, s, m);
    }
    var env := NowEnv(g, x, here, s, m);
    NowIsIteration(g, loopvars, x, here, s, m);
  }

  /** The iteration of `x` that is current in the common loops and first in the others. */
  ghost function NowEnv(g: Tables, x: string, here: string, s: State, m: Model): string -> int
    requires WellFormedTables(g) && x in g.loops && here in g.loops
  {
    (v: string) =>
      if exists b | 0 <= b < Meet(g, x, here) :: IterVar(PathOf(g, here)[b]) == v then Now(v, s)
      else if v in g.mins then IntOf(Eval(g.mins[v], s, m)) else 0
  }

  lemma NowIsIteration(g: Tables, loopvars: set<string>, x: string, here: string, s: State, m: Model)
    requires Setup(g, loopvars) && x in g.loops && here in g.loops && Running(g, x, here, s, m)
    ensures var env, p, d := NowEnv(g, x, here, s, m), PathOf(g, here), Meet(g, x, here);
      IsIteration(g, x, env, s, m) && CurrentUpTo(p, d, env, s) && !EarlierWithin(p, d, env, s)
  {
    hide LoopKey, WellFormedTables, IsNesting, ProgramTables, PathOf, Eval, Meet, IterVar;
    InTables(g);
    var env, q := NowEnv(g, x, here, s, m), PathOf(g, x);
    forall b | 0 <= b < |q| && IterVar(q[b]) in g.nesting
      ensures Within(FullRange(g, IterVar(q[b])), env(IterVar(q[b])), s, m)
    {
      var v := IterVar(q[b]);
      if c :| 0 <= c < Meet(g, x, here) && IterVar(PathOf(g, here)[c]) == v {
        assert env(v) == Now(v, s);
      }
    }
  }

  // ----- the cases -----

  /** Loops with the same loops around them: exactly the executed iterations of the loop itself
      and, in the body of a loop, of all its siblings; in the outermost block of none of them. */
  lemma SiblingsAreCovered(g: Tables, loopvars: set<string>, infos: map<string, Info>,
                           previous: map<string, seq<string>>,
                           a: string, x: string, here: string, env: string -> int, free: bool, s: State, m: Model)
    requires Situation(g, loopvars, infos, previous, a, x, here, env, free, s, m)
    requires g.containing[x] == g.containing[here]
    ensures IsDescribed(g, infos, a, x, here, env, free, s, m) <==>
      Executed(g, x, here, env, s) && (x == here || g.containing[here] != [])
    ensures x != here && g.containing[here] == [] ==> (Executed(g, x, here, env, s) <==> StandsBefore(g, x, here))
  {
    hide LoopKey, Setup, WellFormedTables, GeneratedInfos, Standard, Reached, IsDescribed, Writes, WritesAlone,
      IntsAround, IsIteration, PathOf, Meet, StandsBefore, EarlierWithin, CurrentUpTo, EarlierBranch, InView;
    SetupTables(g, loopvars);
    DescribedExactly(g, loopvars, infos, previous, a, x, here, env, free, s, m);
    if x == here { NotBeforeItself(g, loopvars, x); } else { BesideFacts(g, loopvars, x, here, env, s); }
  }

  lemma NotBeforeItself(g: Tables, loopvars: set<string>, x: string)
    requires Setup(g, loopvars) && x in g.loops
    ensures !EarlierBranch(g, x, x)
  {
    hide LoopKey, Setup, WellFormedTables, PathOf, StandsBefore, Meet;
    SetupTables(g, loopvars);
    MeetItself(g, loopvars, x);
  }

  lemma BesideFacts(g: Tables, loopvars: set<string>, x: string, here: string, env: string -> int, s: State)
    requires Setup(g, loopvars) && x in g.loops && here in g.loops && x != here
    requires x in g.containing && here in g.containing && g.containing[x] == g.containing[here]
    ensures Meet(g, x, here) <= |PathOf(g, here)|
    ensures EarlierBranch(g, x, here) <==> StandsBefore(g, x, here)
    ensures forall free :: InView(g, x, here, free) <==> g.containing[here] != []
    ensures g.containing[here] == [] ==>
      && !EarlierWithin(PathOf(g, here), Meet(g, x, here), env, s)
      && CurrentUpTo(PathOf(g, here), Meet(g, x, here), env, s)
  {
    hide LoopKey, Setup, WellFormedTables, StandsBefore, Meet, PathOf;
    SetupTables(g, loopvars);
    OwnKey(g, loopvars, x);
    OwnKey(g, loopvars, here);
    DifferentLoops(g, loopvars, x, here);
    MeetBeside(g, loopvars, x, here, x, |g.containing[here]|);
  }

  lemma DifferentLoops(g: Tables, loopvars: set<string>, x: string, here: string)
    requires Setup(g, loopvars) && x in g.loops && here in g.loops && x != here
    ensures g.loops[x] != g.loops[here]
  {
    hide LoopKey, WellFormedTables, IsNesting, ProgramTables;
    ParentsApart(g, loopvars, x, here);
  }

  lemma {:induction false} SharedWithItself(p: seq<Stmt>)
    ensures Shared(p, p) == |p|
  {
    if p != [] { SharedWithItself(p[1..]); }
  }

  lemma MeetItself(g: Tables, loopvars: set<string>, x: string)
    requires Setup(g, loopvars) && x in g.loops
    ensures Meet(g, x, x) == |PathOf(g, x)|
  {
    hide LoopKey, WellFormedTables, IsNesting, ProgramTables, PathOf, Shared;
    InTables(g);
    SharedWithItself(PathOf(g, x));
  }

  /** Loops inside `here`: exactly the executed iterations. */
  lemma InsideIsCovered(g: Tables, loopvars: set<string>, infos: map<string, Info>, previous: map<string, seq<string>>,
                        a: string, x: string, here: string, env: string -> int, free: bool, s: State, m: Model)
    requires Situation(g, loopvars, infos, previous, a, x, here, env, free, s, m) && g.loops[here] in PathOf(g, x)
    ensures IsDescribed(g, infos, a, x, here, env, free, s, m) <==> Executed(g, x, here, env, s)
  {
    hide LoopKey, Setup, WellFormedTables, GeneratedInfos, Standard, Reached, IsDescribed, Writes, WritesAlone,
      IntsAround, IsIteration, Shared, StandsBefore, EarlierWithin, CurrentUpTo;
    SetupTables(g, loopvars);
    DescribedExactly(g, loopvars, infos, previous, a, x, here, env, free, s, m);
    OnlySharedOnBoth(g, loopvars, here, x, |PathOf(g, here)| - 1);
  }

  /** Loops inside a loop beside `here`: what belongs to an earlier iteration of a loop around
      `here`, and, when variables without a range are free, what lies in an earlier sibling. When
      they are not, those executed iterations are missed; in the outermost block they always are. */
  lemma InnerLoopsOfSiblings(g: Tables, loopvars: set<string>, infos: map<string, Info>,
                             previous: map<string, seq<string>>,
                             a: string, x: string, here: string, env: string -> int, free: bool, s: State, m: Model)
    requires Situation(g, loopvars, infos, previous, a, x, here, env, free, s, m)
    requires g.containing[here] < g.containing[x] && g.loops[here] !in g.containing[x]
    ensures var n := |g.containing[here]|;
      && LoopKey(g.containing[x][n]) in g.loops
      && (Executed(g, x, here, env, s) <==>
            || EarlierWithin(PathOf(g, here), n, env, s)
            || (CurrentUpTo(PathOf(g, here), n, env, s) && StandsBefore(g, LoopKey(g.containing[x][n]), here)))
      && (IsDescribed(g, infos, a, x, here, env, free, s, m) <==>
            if free && n > 0 then Executed(g, x, here, env, s) else EarlierWithin(PathOf(g, here), n, env, s))
  {
    hide LoopKey, Setup, WellFormedTables, GeneratedInfos, Standard, Reached, IsDescribed, Writes, WritesAlone,
      IntsAround, IsIteration, Shared, StandsBefore, EarlierWithin, CurrentUpTo;
    SetupTables(g, loopvars);
    DescribedExactly(g, loopvars, infos, previous, a, x, here, env, free, s, m);
    OwnKey(g, loopvars, here);
    MeetBelow(g, loopvars, x, here);
    Branch(g, loopvars, x, |g.containing[here]|);
  }

  lemma MeetBelow(g: Tables, loopvars: set<string>, x: string, here: string)
    requires Setup(g, loopvars) && x in g.loops && here in g.loops && here in g.containing && x in g.containing
    requires g.containing[here] < g.containing[x] && g.loops[here] !in g.containing[x]
    ensures Meet(g, x, here) == |g.containing[here]|
    ensures PathOf(g, x)[|g.containing[here]|] == g.containing[x][|g.containing[here]|]
  {
    hide LoopKey, WellFormedTables, IsNesting, ProgramTables, Shared;
    InTables(g);
    var p, q, n := PathOf(g, here), PathOf(g, x), |g.containing[here]|;
    var d := Shared(p, q);
    assert p[..n] == q[..n];
    assert q[n] == g.containing[x][n] && p[n] == g.loops[here];
    if n > 0 { SharedSoFar(p, q, n - 1); }
    if n < d { SharedAt(p, q, n); }
  }
}
