/** How the set of executed iterations grows along a run: on entering a loop, from one iteration
    to the next, and on leaving it. */
module LoopOrder {
  import opened StencilIr
  import opened Interpret
  import opened Invariant
  import opened Siblings
  import opened SiblingTables
  import opened SiblingCoverage

  /** Loop `k` stands in the body of loop `p`. */
  ghost predicate ChildOf(g: Tables, k: string, p: string)
    requires WellFormedTables(g) && k in g.loops && p in g.loops
  {
    g.containing[k] == PathOf(g, p)
  }

  /** The loop in the body of `p` in which `x` lies or which it is. */
  function BranchOf(g: Tables, x: string, p: string): string
    requires WellFormedTables(g) && x in g.loops && p in g.loops && |PathOf(g, p)| < |PathOf(g, x)|
  {
    LoopKey(PathOf(g, x)[|PathOf(g, p)|])
  }

  /** The iteration `env` of a loop inside `p` belongs to the current iteration of `p`. */
  ghost predicate InCurrent(g: Tables, x: string, p: string, env: string -> int, s: State)
    requires WellFormedTables(g) && x in g.loops && p in g.loops
  {
    PathOf(g, p) < PathOf(g, x) && CurrentUpTo(PathOf(g, p), |PathOf(g, p)|, env, s)
  }

  /** It lies in a branch before the loop `k` in the body of `p`. */
  ghost predicate BeforeBranch(g: Tables, x: string, k: string, p: string)
    requires WellFormedTables(g) && x in g.loops && k in g.loops && p in g.loops
  {
    |PathOf(g, p)| < |PathOf(g, x)| && BranchOf(g, x, p) in g.loops && StandsBefore(g, BranchOf(g, x, p), k)
  }

  ghost predicate InBranch(g: Tables, x: string, k: string, p: string)
    requires WellFormedTables(g) && x in g.loops && k in g.loops && p in g.loops
  {
    |PathOf(g, p)| < |PathOf(g, x)| && BranchOf(g, x, p) == k
  }

  lemma {:induction false} SharedAppend(p: seq<Stmt>, w: Stmt, q: seq<Stmt>)
    ensures var d := Shared(p, q);
      Shared(p + [w], q) == if d == |p| < |q| && q[d] == w then d + 1 else d
  {
    if p == [] {
      assert p + [w] == [w] && (p + [w])[1..] == [];
      if q != [] { assert Shared([w], q) == if q[0] == w then 1 + Shared([], q[1..]) else 0; }
    } else {
      assert (p + [w])[0] == p[0] && (p + [w])[1..] == p[1..] + [w];
      if q != [] && p[0] == q[0] { SharedAppend(p[1..], w, q[1..]); }
    }
  }

  lemma EarlierAppend(p: seq<Stmt>, w: Stmt, env: string -> int, s: State)
    ensures forall n | 0 <= n <= |p| :: EarlierWithin(p + [w], n, env, s) <==> EarlierWithin(p, n, env, s)
    ensures forall n | 0 <= n <= |p| :: CurrentUpTo(p + [w], n, env, s) <==> CurrentUpTo(p, n, env, s)
    ensures EarlierWithin(p + [w], |p| + 1, env, s) <==>
      EarlierWithin(p, |p|, env, s) || (CurrentUpTo(p, |p|, env, s) && env(IterVar(w)) < Now(IterVar(w), s))
  {
    forall n | 0 <= n <= |p| ensures CurrentUpTo(p + [w], n, env, s) <==> CurrentUpTo(p, n, env, s) {
      assert forall b | 0 <= b < n :: (p + [w])[b] == p[b];
    }
    assert forall b | 0 <= b < |p| :: (p + [w])[b] == p[b];
  }

  /** In front of an iteration of `k` there are the iterations executed in front of the current
      one of its parent, those of the branches before it, and its own earlier ones. */
  lemma ExecutedInChild(g: Tables, loopvars: set<string>, x: string, k: string, p: string, env: string -> int, s: State)
    requires Setup(g, loopvars) && x in g.loops && k in g.loops && p in g.loops && ChildOf(g, k, p)
    requires g.loops[x] !in PathOf(g, p)
    ensures Executed(g, x, k, env, s) <==>
      || Executed(g, x, p, env, s)
      || (&& InCurrent(g, x, p, env, s)
          && (BeforeBranch(g, x, k, p)
              || (InBranch(g, x, k, p) && env(IterVar(g.loops[k])) < Now(IterVar(g.loops[k]), s))))
  {
    hide LoopKey, Setup, WellFormedTables, PathOf, Meet, Executed, InCurrent, BeforeBranch, InBranch;
    SetupTables(g, loopvars);
    if Meet(g, x, p) < |PathOf(g, p)| {
      ParkedOutside(g, loopvars, x, k, p, env, s);
    } else {
      ParkedInside(g, loopvars, x, k, p, env, s);
    }
  }

  lemma PathOfChild(g: Tables, loopvars: set<string>, k: string, p: string)
    requires Setup(g, loopvars) && k in g.loops && p in g.loops && ChildOf(g, k, p)
    ensures PathOf(g, k) == PathOf(g, p) + [g.loops[k]] && LoopKey(g.loops[k]) == k
  {
    hide LoopKey, Setup, WellFormedTables;
    SetupTables(g, loopvars);
    OwnKey(g, loopvars, k);
  }

  lemma {:induction false} SharedAll(p: seq<Stmt>, q: seq<Stmt>)
    requires p <= q
    ensures Shared(p, q) == |p|
  {
    hide Shared;
    if p != [] {
      assert q[..|p|] == p && p[..|p|] == p;
      SharedSoFar(p, q, |p| - 1);
    }
  }

  /** Loop `x` lies outside `p`: the body of `p` makes no difference. */
  lemma ParkedOutside(g: Tables, loopvars: set<string>, x: string, k: string, p: string, env: string -> int, s: State)
    requires Setup(g, loopvars) && x in g.loops && k in g.loops && p in g.loops && ChildOf(g, k, p)
    requires Meet(g, x, p) < |PathOf(g, p)|
    ensures Executed(g, x, k, env, s) <==> Executed(g, x, p, env, s)
    ensures !InCurrent(g, x, p, env, s)
  {
    hide LoopKey, Setup, WellFormedTables, StandsBefore, PathOf, Shared, EarlierWithin, CurrentUpTo;
    SetupTables(g, loopvars);
    PathOfChild(g, loopvars, k, p);
    var pp, q, w := PathOf(g, p), PathOf(g, x), g.loops[k];
    SharedAppend(pp, w, q);
    EarlierAppend(pp, w, env, s);
    if pp <= q { SharedAll(pp, q); }
  }

  /** Loop `x` lies inside `p`. */
  lemma ParkedInside(g: Tables, loopvars: set<string>, x: string, k: string, p: string, env: string -> int, s: State)
    requires Setup(g, loopvars) && x in g.loops && k in g.loops && p in g.loops && ChildOf(g, k, p)
    requires Meet(g, x, p) == |PathOf(g, p)| && g.loops[x] !in PathOf(g, p)
    ensures Executed(g, x, k, env, s) <==>
      || Executed(g, x, p, env, s)
      || (&& InCurrent(g, x, p, env, s)
          && (BeforeBranch(g, x, k, p)
              || (InBranch(g, x, k, p) && env(IterVar(g.loops[k])) < Now(IterVar(g.loops[k]), s))))
  {
    hide LoopKey, Setup, WellFormedTables, StandsBefore, PathOf, Shared, EarlierWithin, CurrentUpTo;
    SetupTables(g, loopvars);
    PathOfChild(g, loopvars, k, p);
    var pp, q, w := PathOf(g, p), PathOf(g, x), g.loops[k];
    var d := |pp|;
    InsideIsLonger(g, loopvars, x, p);
    SharedAppend(pp, w, q);
    EarlierAppend(pp, w, env, s);
    Branch(g, loopvars, x, d);
    NotBeforeSelf(g, k);
  }

  lemma InsideIsLonger(g: Tables, loopvars: set<string>, x: string, p: string)
    requires Setup(g, loopvars) && x in g.loops && p in g.loops
    requires Meet(g, x, p) == |PathOf(g, p)| && g.loops[x] !in PathOf(g, p)
    ensures |PathOf(g, p)| < |PathOf(g, x)| && PathOf(g, p) < PathOf(g, x)
  {
    hide LoopKey, Setup, WellFormedTables, PathOf, Shared;
    SetupTables(g, loopvars);
    var pp, q := PathOf(g, p), PathOf(g, x);
    assert pp[..|pp|] == pp && pp <= q;
    assert q[|q| - 1] in q;
    if |q| <= |pp| { LongPrefix(pp, q); }
  }

  lemma LongPrefix(p: seq<Stmt>, q: seq<Stmt>)
    requires p <= q && |q| <= |p|
    ensures p == q
  {
  }

  lemma NotBeforeSelf(g: Tables, k: string)
    requires k in g.loops && k in g.containing
    ensures !StandsBefore(g, k, k)
  {
  }

  /** In front of an iteration of a loop itself, for what lies in it: the earlier iterations. */
  lemma ExecutedInside(g: Tables, loopvars: set<string>, x: string, p: string, env: string -> int, s: State)
    requires Setup(g, loopvars) && x in g.loops && p in g.loops && g.loops[p] in PathOf(g, x)
    ensures Executed(g, x, p, env, s) <==> EarlierWithin(PathOf(g, p), |PathOf(g, p)|, env, s)
  {
    hide LoopKey, Setup, WellFormedTables, StandsBefore, PathOf, Shared, EarlierWithin, CurrentUpTo;
    SetupTables(g, loopvars);
    var pp := PathOf(g, p);
    OnlySharedOnBoth(g, loopvars, p, x, |pp| - 1);
  }

  /** A further iteration of `p` adds what lies in the one that was current. */
  lemma ExecutedNext(g: Tables, loopvars: set<string>, x: string, p: string, env: string -> int, s: State)
    requires Setup(g, loopvars) && x in g.loops && p in g.loops
    ensures var v := IterVar(g.loops[p]);
      Executed(g, x, p, env, s[v := IntV(Now(v, s) + 1)]) <==>
        || Executed(g, x, p, env, s)
        || (g.loops[p] in PathOf(g, x) && CurrentUpTo(PathOf(g, p), |PathOf(g, p)|, env, s))
  {
    hide LoopKey, Setup, WellFormedTables, StandsBefore, PathOf, Meet, EarlierWithin, CurrentUpTo, EarlierBranch;
    SetupTables(g, loopvars);
    var v := IterVar(g.loops[p]);
    var t := s[v := IntV(Now(v, s) + 1)];
    var pp := PathOf(g, p);
    OnlySharedOnBothMeet(g, loopvars, p, x, |pp| - 1);
    PathVars(g, loopvars, p);
    OneFurther(pp, env, s);
    if g.loops[p] in PathOf(g, x) {
      ExecutedInside(g, loopvars, x, p, env, s);
      ExecutedInside(g, loopvars, x, p, env, t);
    }
  }

  lemma OnlySharedOnBothMeet(g: Tables, loopvars: set<string>, k: string, l: string, a: nat)
    requires Setup(g, loopvars) && k in g.loops && l in g.loops && a < |PathOf(g, k)|
    ensures PathOf(g, k)[a] in PathOf(g, l) <==> a < Meet(g, l, k)
  {
    hide LoopKey, Setup, WellFormedTables, PathOf, Shared;
    SetupTables(g, loopvars);
    OnlySharedOnBoth(g, loopvars, k, l, a);
  }

  /** The loops on a path have distinct variables. */
  lemma PathVars(g: Tables, loopvars: set<string>, p: string)
    requires Setup(g, loopvars) && p in g.loops
    ensures forall i, j | 0 <= i < j < |PathOf(g, p)| :: IterVar(PathOf(g, p)[i]) != IterVar(PathOf(g, p)[j])
  {
    hide LoopKey, WellFormedTables, IsNesting, ProgramTables, PathOf, IterVar;
    InTables(g);
    var pp := PathOf(g, p);
    forall i, j | 0 <= i < j < |pp| ensures IterVar(pp[i]) != IterVar(pp[j]) {
      PathFacts(g, loopvars, p, i);
      PathFacts(g, loopvars, p, j);
      PathPlaces(g, loopvars, p, i, j);
    }
  }

  lemma OneFurther(pp: seq<Stmt>, env: string -> int, s: State)
    requires pp != [] && forall i, j | 0 <= i < j < |pp| :: IterVar(pp[i]) != IterVar(pp[j])
    ensures var n := |pp| - 1;
      var v := IterVar(pp[n]);
      var t := s[v := IntV(Now(v, s) + 1)];
      && (forall a | 0 <= a <= n :: CurrentUpTo(pp, a, env, t) <==> CurrentUpTo(pp, a, env, s))
      && (forall a | 0 <= a <= n :: EarlierWithin(pp, a, env, t) <==> EarlierWithin(pp, a, env, s))
      && (EarlierWithin(pp, |pp|, env, t) <==> EarlierWithin(pp, |pp|, env, s) || CurrentUpTo(pp, |pp|, env, s))
  {
    hide IterVar;
    var n := |pp| - 1;
    var v := IterVar(pp[n]);
    var t := s[v := IntV(Now(v, s) + 1)];
    assert forall b | 0 <= b < n :: Now(IterVar(pp[b]), t) == Now(IterVar(pp[b]), s);
    assert Now(v, t) == Now(v, s) + 1;
  }

  /** In front of an outermost loop, for what lies in it: its earlier iterations. */
  lemma ExecutedAtRoot(g: Tables, loopvars: set<string>, x: string, p: string, env: string -> int, s: State)
    requires Setup(g, loopvars) && x in g.loops && p in g.loops && g.loops[p] in PathOf(g, x) && g.containing[p] == []
    ensures Executed(g, x, p, env, s) <==> env(IterVar(g.loops[p])) < Now(IterVar(g.loops[p]), s)
  {
    hide LoopKey, Setup, WellFormedTables, StandsBefore;
    SetupTables(g, loopvars);
    ExecutedInside(g, loopvars, x, p, env, s);
  }

  /** Only the loops on its path matter in front of a loop. */
  lemma ExecutedFrame(g: Tables, loopvars: set<string>, x: string, k: string, env: string -> int, s: State, t: State)
    requires Setup(g, loopvars) && x in g.loops && k in g.loops
    requires forall b | 0 <= b < |PathOf(g, k)| :: Now(IterVar(PathOf(g, k)[b]), t) == Now(IterVar(PathOf(g, k)[b]), s)
    ensures Executed(g, x, k, env, t) <==> Executed(g, x, k, env, s)
  {
    hide LoopKey, Setup, WellFormedTables, StandsBefore, PathOf, Meet, EarlierBranch, IterVar;
    SetupTables(g, loopvars);
  }
}
