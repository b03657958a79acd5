/** Points, boxes and the lexicographic meaning of the invariants generated for a nest. */
module NestMeaning {
  import opened StencilIr
  import opened Interpret
  import opened VerifyTheorems
  import opened Invariant
  import opened Nest

  // ----- points of the iteration space -----

  function IntOf(v: Value): int { if v.IntV? then v.i else 0 }

  /** The state in which the loop variables have the coordinates of `p`. */
  ghost function At(P: NestProg, s: State, p: seq<int>): State
    requires P.WellFormed() && |p| == P.Depth()
  {
    s + map i | 0 <= i < P.Depth() :: P.levels[i].v := IntV(p[i])
  }

  function Lo(P: NestProg, i: nat, s: State, m: Model): int
    requires i < P.Depth()
  {
    IntOf(Eval(P.levels[i].lo, s, m))
  }

  function Hi(P: NestProg, i: nat, s: State, m: Model): int
    requires i < P.Depth()
  {
    IntOf(Eval(P.levels[i].hi, s, m))
  }

  /** The current value of loop variable `i`. */
  function Val(P: NestProg, i: nat, s: State): int
    requires i < P.Depth()
  {
    IntOf(Lookup(s, P.levels[i].v))
  }

  ghost predicate InBox(P: NestProg, p: seq<int>, s: State, m: Model) {
    |p| == P.Depth() && forall i | 0 <= i < P.Depth() :: Lo(P, i, s, m) <= p[i] < Hi(P, i, s, m)
  }

  ghost function Idx(P: NestProg, p: seq<int>, s: State, m: Model): Value
    requires P.WellFormed() && |p| == P.Depth()
  {
    Eval(P.idx, At(P, s, p), m)
  }

  ghost function Rhs(P: NestProg, p: seq<int>, s: State, m: Model): Value
    requires P.WellFormed() && |p| == P.Depth()
  {
    Eval(P.rhs, At(P, s, p), m)
  }

  /** The output has its final value for point `p`. */
  ghost predicate Done(P: NestProg, p: seq<int>, s: State, m: Model)
    requires P.WellFormed() && |p| == P.Depth()
  {
    Select(Lookup(s, P.out), Idx(P, p, s, m)) == Rhs(P, p, s, m)
  }

  /** The postcondition: every point of the box is done. */
  ghost predicate AllDone(P: NestProg, s: State, m: Model)
    requires P.WellFormed()
  {
    forall p | InBox(P, p, s, m) :: Done(P, p, s, m)
  }

  /** What is assumed of the inputs: integer bounds with `hi - lo > 1` (generate_sketch.py:542)
      and an integer index that is injective on the box. */
  ghost predicate Assumed(P: NestProg, s: State, m: Model)
    requires P.WellFormed()
  {
    && (forall i | 0 <= i < P.Depth() ::
          Eval(P.levels[i].lo, s, m).IntV? && Eval(P.levels[i].hi, s, m).IntV? && Hi(P, i, s, m) - Lo(P, i, s, m) > 1)
    && (forall p | InBox(P, p, s, m) :: Idx(P, p, s, m).IntV?)
    && (forall p, q | InBox(P, p, s, m) && InBox(P, q, s, m) && p != q :: Idx(P, p, s, m) != Idx(P, q, s, m))
  }

  ghost function Admissible(P: NestProg, m: Model): State -> bool
    requires P.WellFormed()
  {
    (s: State) => Assumed(P, s, m)
  }

  // ----- frames -----

  lemma AtLookup(P: NestProg, s: State, p: seq<int>, x: string)
    requires P.WellFormed() && |p| == P.Depth()
    ensures x !in P.LoopVars() ==> Lookup(At(P, s, p), x) == Lookup(s, x)
    ensures forall i | 0 <= i < P.Depth() && x == P.levels[i].v :: Lookup(At(P, s, p), x) == IntV(p[i])
  {
  }

  lemma AtFrame(P: NestProg, e: Exp, s: State, x: string, w: Value, p: seq<int>, m: Model)
    requires P.WellFormed() && |p| == P.Depth() && P.out !in Vars(e) && x in P.Changing()
    ensures Eval(e, At(P, s[x := w], p), m) == Eval(e, At(P, s, p), m)
  {
    hide Eval, Vars, NestProg.WellFormed;
    forall y | y in Vars(e) ensures Lookup(At(P, s[x := w], p), y) == Lookup(At(P, s, p), y) {
      AtLookup(P, s, p, y);
      AtLookup(P, s[x := w], p, y);
    }
    Coincidence(e, At(P, s[x := w], p), At(P, s, p), m);
  }

  lemma FixedFrame(P: NestProg, e: Exp, s: State, x: string, w: Value, m: Model)
    requires P.Fixed(e) && x in P.Changing()
    ensures Eval(e, s[x := w], m) == Eval(e, s, m)
  {
    hide Eval, Vars, Plain;
    Coincidence(e, s[x := w], s, m);
  }

  /** Assigning a changing variable moves no bound, index or right-hand side. */
  lemma SpaceFrame(P: NestProg, s: State, x: string, w: Value, m: Model)
    requires P.WellFormed() && x in P.Changing()
    ensures forall i | 0 <= i < P.Depth() ::
      && Eval(P.levels[i].lo, s[x := w], m) == Eval(P.levels[i].lo, s, m)
      && Eval(P.levels[i].hi, s[x := w], m) == Eval(P.levels[i].hi, s, m)
    ensures forall p :: InBox(P, p, s[x := w], m) == InBox(P, p, s, m)
    ensures forall p | |p| == P.Depth() ::
      Idx(P, p, s[x := w], m) == Idx(P, p, s, m) && Rhs(P, p, s[x := w], m) == Rhs(P, p, s, m)
  {
    hide Eval, Vars, NestProg.Fixed, At;
    forall i | 0 <= i < P.Depth()
      ensures Eval(P.levels[i].lo, s[x := w], m) == Eval(P.levels[i].lo, s, m)
      ensures Eval(P.levels[i].hi, s[x := w], m) == Eval(P.levels[i].hi, s, m)
    {
      FixedFrame(P, P.levels[i].lo, s, x, w, m);
      FixedFrame(P, P.levels[i].hi, s, x, w, m);
    }
    forall p | |p| == P.Depth()
      ensures Idx(P, p, s[x := w], m) == Idx(P, p, s, m) && Rhs(P, p, s[x := w], m) == Rhs(P, p, s, m)
    {
      AtFrame(P, P.idx, s, x, w, p, m);
      AtFrame(P, P.rhs, s, x, w, p, m);
    }
  }

  lemma AssumedFrame(P: NestProg, s: State, x: string, w: Value, m: Model)
    requires P.WellFormed() && x in P.Changing() && Assumed(P, s, m)
    ensures Assumed(P, s[x := w], m)
  {
    hide Eval, NestProg.WellFormed, Idx, InBox;
    SpaceFrame(P, s, x, w, m);
    var t := s[x := w];
    assert forall p :: InBox(P, p, t, m) == InBox(P, p, s, m);
    forall p | InBox(P, p, t, m)
      ensures |p| == P.Depth() && Idx(P, p, t, m) == Idx(P, p, s, m)
    {
      BoxDepth(P, p, t, m);
    }
  }

  lemma BoxDepth(P: NestProg, p: seq<int>, s: State, m: Model)
    requires InBox(P, p, s, m)
    ensures |p| == P.Depth()
  {
  }

  lemma AdmissibleClosed(P: NestProg, m: Model)
    requires P.WellFormed()
    ensures Closed(Admissible(P, m), P.Changing())
  {
    hide NestProg.WellFormed, Assumed;
    forall s, x, w {:trigger Admissible(P, m)(s[x := w])} | Admissible(P, m)(s) && x in P.Changing()
      ensures Admissible(P, m)(s[x := w])
    {
      AssumedFrame(P, s, x, w, m);
    }
  }

  /** At the current point, reading through `At` changes nothing. */
  lemma AtCurrent(P: NestProg, e: Exp, s: State, p: seq<int>, m: Model)
    requires P.WellFormed() && |p| == P.Depth()
    requires forall i | 0 <= i < P.Depth() :: Lookup(s, P.levels[i].v) == IntV(p[i])
    ensures Eval(e, At(P, s, p), m) == Eval(e, s, m)
  {
    hide Eval, Vars, NestProg.WellFormed;
    forall y | y in Vars(e) ensures Lookup(At(P, s, p), y) == Lookup(s, y) { AtLookup(P, s, p, y); }
    Coincidence(e, At(P, s, p), s, m);
  }

  /** With at least two values per loop variable, an injective index mentions every one of them. */
  lemma IndexMentionsAll(P: NestProg, s: State, k: nat, m: Model)
    requires P.WellFormed() && Assumed(P, s, m) && k < P.Depth()
    ensures P.levels[k].v in Vars(P.idx)
  {
    hide Eval, Vars, NestProg.WellFormed, At;
    var p := seq(P.Depth(), i requires 0 <= i < P.Depth() => Lo(P, i, s, m));
    var q := p[k := p[k] + 1];
    assert InBox(P, p, s, m) && InBox(P, q, s, m) && p[k] != q[k];
    if P.levels[k].v !in Vars(P.idx) {
      forall y | y in Vars(P.idx) ensures Lookup(At(P, s, p), y) == Lookup(At(P, s, q), y) {
        AtLookup(P, s, p, y);
        AtLookup(P, s, q, y);
      }
      Coincidence(P.idx, At(P, s, p), At(P, s, q), m);
    }
  }

  // ----- the meaning of the generated invariants -----

  /** `p` agrees with the current values of the loop variables outside loop `j`. */
  ghost predicate Agrees(P: NestProg, j: nat, p: seq<int>, s: State)
    requires |p| == P.Depth() && j <= P.Depth()
  {
    forall i | 0 <= i < j :: p[i] == Val(P, i, s)
  }

  /** `p` comes lexicographically before the current values of loop variables 0..k. */
  ghost predicate Before(P: NestProg, k: nat, p: seq<int>, s: State)
    requires |p| == P.Depth() && k < P.Depth()
  {
    exists j | 0 <= j <= k :: Agrees(P, j, p, s) && p[j] < Val(P, j, s)
  }

  /** The bounds every invariant carries: its own loop may have ended, the loops around it not. */
  ghost predicate InBounds(P: NestProg, k: nat, s: State, m: Model)
    requires k < P.Depth()
  {
    && (forall j | 0 <= j <= k :: Lookup(s, P.levels[j].v).IntV? && Lo(P, j, s, m) <= Val(P, j, s) <= Hi(P, j, s, m))
    && (forall j | 0 <= j < k :: Val(P, j, s) < Hi(P, j, s, m))
  }

  ghost predicate Within(r: Range, n: int, s: State, m: Model) {
    IntOf(Eval(r.lo, s, m)) <= n < IntOf(Eval(r.hi, s, m))
  }

  /** What a clause says about the value of one loop variable. A variable without a range is left
      free, or rules the clause out. */
  ghost predicate Allows(c: Clause, v: string, n: int, free: bool, s: State, m: Model) {
    if v in c.ranges then Within(c.ranges[v], n, s, m) else free
  }

  /** `p` lies in the box of a clause. */
  ghost predicate InRanges(P: NestProg, c: Clause, p: seq<int>, s: State, m: Model) {
    && |p| == P.Depth()
    && forall i | 0 <= i < P.Depth() :: Allows(c, P.levels[i].v, p[i], true, s, m)
  }

  /** In a nest no clause lacks a range, so that both readings agree. */
  lemma NothingIsFree(P: NestProg, g: Tables, infos: map<string, Info>, k: nat, c: Clause, p: seq<int>, s: State,
                      m: Model)
    requires P.WellFormed() && Generated(P, g, infos) && k < P.Depth() && c in Reached(infos, P.Key(k), P.Depth())
    ensures InRanges(P, c, p, s, m)
      <==> |p| == P.Depth() && forall i | 0 <= i < P.Depth() :: Allows(c, P.levels[i].v, p[i], false, s, m)
  {
    hide Generated, NestProg.Key, NestProg.WellFormed, Reached, Within, NestClause;
    ReachedClauses(P, g, infos, k, P.Depth());
    InClausesDown(P, k, c);
  }

  ghost predicate ClauseHolds(P: NestProg, c: Clause, s: State, m: Model)
    requires P.WellFormed()
  {
    P.out in c.outputs ==> forall p | InRanges(P, c, p, s, m) :: Done(P, p, s, m)
  }

  /** What the generated invariant of loop `k` says. */
  ghost predicate Means(P: NestProg, infos: map<string, Info>, k: nat, s: State, m: Model)
    requires P.WellFormed() && k < P.Depth()
  {
    && InBounds(P, k, s, m)
    && forall c | c in Reached(infos, P.Key(k), P.Depth()) :: ClauseHolds(P, c, s, m)
  }

  /** The infos `generate_invariant` returns for the loops of the nest. */
  ghost predicate Generated(P: NestProg, g: Tables, infos: map<string, Info>)
    requires P.WellFormed()
  {
    && TablesOf(g, P.Program(), P.LoopVars()) && WellFormedTables(g)
    && forall k | 0 <= k < P.Depth() ::
      P.Key(k) in g.loops && P.Key(k) in infos && infos[P.Key(k)] == InfoFor(g, P.Key(k), [])
  }

  ghost function ClausesDown(P: NestProg, k: nat): seq<Clause>
    requires P.WellFormed() && k < P.Depth()
  {
    [NestClause(P, k)] + if k == 0 then [] else ClausesDown(P, k - 1)
  }

  lemma {:induction false} InClausesDown(P: NestProg, k: nat, c: Clause)
    requires P.WellFormed() && k < P.Depth()
    ensures c in ClausesDown(P, k) <==> exists j | 0 <= j <= k :: c == NestClause(P, j)
  {
    hide NestClause, NestProg.WellFormed;
    if k > 0 { InClausesDown(P, k - 1, c); }
  }

  /** Through the calls, loop `k` reaches exactly the clauses of loops k, k-1, .., 0. */
  lemma {:induction false} ReachedClauses(P: NestProg, g: Tables, infos: map<string, Info>, k: nat, fuel: nat)
    requires P.WellFormed() && Generated(P, g, infos) && k < fuel && k < P.Depth()
    ensures Reached(infos, P.Key(k), fuel) == ClausesDown(P, k)
  {
    hide Generated, NestClause, Reached, NestProg.Key, NestProg.WellFormed;
    GeneratedAt(P, g, infos, k);
    ReachedStep(infos, P.Key(k), fuel);
    if k > 0 { ReachedClauses(P, g, infos, k - 1, fuel - 1); }
  }

  lemma GeneratedAt(P: NestProg, g: Tables, infos: map<string, Info>, k: nat)
    requires P.WellFormed() && Generated(P, g, infos) && k < P.Depth()
    ensures P.Key(k) in infos
    ensures infos[P.Key(k)] == Info(P.Key(k), if k == 0 then [] else [P.Key(k - 1)], [NestClause(P, k)])
  {
    hide TablesOf, WellFormedTables, NestClause, InfoFor, NestProg.Key, NestProg.WellFormed;
    NestInfo(P, g, k);
  }

  lemma RangeAt(P: NestProg, j: nat, i: nat, s: State, m: Model)
    requires P.WellFormed() && Standard(m) && j < P.Depth() && i < P.Depth()
    requires i < j ==> Lookup(s, P.levels[i].v).IntV?
    ensures IntOf(Eval(NestRange(P, j, i).lo, s, m)) == if i < j then Val(P, i, s) else Lo(P, i, s, m)
    ensures IntOf(Eval(NestRange(P, j, i).hi, s, m))
      == if i < j then Val(P, i, s) + 1 else if i == j then Val(P, i, s) else Hi(P, i, s, m)
  {
    hide NestProg.WellFormed, Eval, Standard, Current;
    EvalVar(P.levels[i].v, s, m);
    if i < j { CurrentRange(P.levels[i].v, s, m); }
  }

  /** The clause of loop `j` covers the points that agree with the current iteration outside
      loop `j` and come before it in loop `j`. */
  lemma ClauseBox(P: NestProg, j: nat, p: seq<int>, s: State, m: Model)
    requires P.WellFormed() && Standard(m) && j < P.Depth()
    requires forall i | 0 <= i < j :: Lookup(s, P.levels[i].v).IntV?
    ensures InRanges(P, NestClause(P, j), p, s, m) <==>
      && |p| == P.Depth() && Agrees(P, j, p, s)
      && Lo(P, j, s, m) <= p[j] < Val(P, j, s)
      && forall i | j < i < P.Depth() :: Lo(P, i, s, m) <= p[i] < Hi(P, i, s, m)
  {
    hide NestClause, NestProg.WellFormed, Eval, NestRange, Standard, Lo, Hi, Val;
    if |p| == P.Depth() {
      forall i | 0 <= i < P.Depth()
        ensures IntOf(Eval(NestRange(P, j, i).lo, s, m)) == if i < j then Val(P, i, s) else Lo(P, i, s, m)
        ensures IntOf(Eval(NestRange(P, j, i).hi, s, m))
          == if i < j then Val(P, i, s) + 1 else if i == j then Val(P, i, s) else Hi(P, i, s, m)
      {
        RangeAt(P, j, i, s, m);
      }
    }
  }

  lemma EvalVar(v: string, s: State, m: Model)
    ensures Eval(Var(v), s, m) == Lookup(s, v)
  {
  }

  lemma CurrentRange(v: string, s: State, m: Model)
    requires Standard(m) && Lookup(s, v).IntV?
    ensures Eval(Current(v).lo, s, m) == Lookup(s, v) && Eval(Current(v).hi, s, m) == IntV(Lookup(s, v).i + 1)
  {
    assert Eval(Current(v).hi, s, m) == m.bin(Add, Lookup(s, v), IntV(1));
  }

  /** At the head of loop `k`, the boxes reached through the calls cover exactly the points of
      the box that come lexicographically before the current iteration. */
  lemma LexicographicPrefix(P: NestProg, g: Tables, infos: map<string, Info>, k: nat, p: seq<int>, s: State, m: Model)
    requires P.WellFormed() && Generated(P, g, infos) && Standard(m) && k < P.Depth() && InBounds(P, k, s, m)
    ensures (exists c | c in Reached(infos, P.Key(k), P.Depth()) :: InRanges(P, c, p, s, m))
       <==> InBox(P, p, s, m) && Before(P, k, p, s)
  {
    hide LoopKey, Generated, NestProg.Key, NestProg.WellFormed, Reached, InRanges, Standard, NestClause, InBounds,
      Before, Lo, Hi;
    ReachedClauses(P, g, infos, k, P.Depth());
    if c :| c in ClausesDown(P, k) && InRanges(P, c, p, s, m) {
      InClausesDown(P, k, c);
      var j :| 0 <= j <= k && c == NestClause(P, j);
      BoxIsBefore(P, j, k, p, s, m);
    }
    if InBox(P, p, s, m) && Before(P, k, p, s) {
      var j := BeforeIsInBox(P, k, p, s, m);
      InClausesDown(P, k, NestClause(P, j));
    }
  }

  lemma BoxIsBefore(P: NestProg, j: nat, k: nat, p: seq<int>, s: State, m: Model)
    requires P.WellFormed() && Standard(m) && j <= k < P.Depth() && InBounds(P, k, s, m)
    requires InRanges(P, NestClause(P, j), p, s, m)
    ensures InBox(P, p, s, m) && Before(P, k, p, s)
  {
    hide NestProg.WellFormed, InRanges, Standard, NestClause, Lo, Hi, Val;
    ClauseBox(P, j, p, s, m);
    assert Agrees(P, j, p, s) && p[j] < Val(P, j, s);
  }

  lemma BeforeIsInBox(P: NestProg, k: nat, p: seq<int>, s: State, m: Model) returns (j: nat)
    requires P.WellFormed() && Standard(m) && k < P.Depth() && InBounds(P, k, s, m)
    requires InBox(P, p, s, m) && Before(P, k, p, s)
    ensures j <= k && InRanges(P, NestClause(P, j), p, s, m)
  {
    hide NestProg.WellFormed, InRanges, Standard, NestClause, Lo, Hi, Val;
    j :| 0 <= j <= k && Agrees(P, j, p, s) && p[j] < Val(P, j, s);
    ClauseBox(P, j, p, s, m);
  }

  /** The boxes of different loops share no point. */
  lemma BoxesAreDisjoint(P: NestProg, i: nat, j: nat, p: seq<int>, s: State, m: Model)
    requires P.WellFormed() && Standard(m) && i < j < P.Depth()
    requires forall l | 0 <= l < j :: Lookup(s, P.levels[l].v).IntV?
    ensures !(InRanges(P, NestClause(P, i), p, s, m) && InRanges(P, NestClause(P, j), p, s, m))
  {
    hide NestProg.WellFormed, InRanges, Eval, NestClause;
    ClauseBox(P, i, p, s, m);
    ClauseBox(P, j, p, s, m);
  }

  /** The lexicographic reading of the invariant of loop `k`. */
  ghost predicate Prefix(P: NestProg, k: nat, s: State, m: Model)
    requires P.WellFormed() && k < P.Depth()
  {
    InBounds(P, k, s, m) && forall p | InBox(P, p, s, m) && Before(P, k, p, s) :: Done(P, p, s, m)
  }

  lemma MeansPrefix(P: NestProg, g: Tables, infos: map<string, Info>, k: nat, s: State, m: Model)
    requires P.WellFormed() && Generated(P, g, infos) && Standard(m) && k < P.Depth() && Assumed(P, s, m)
    ensures Means(P, infos, k, s, m) <==> Prefix(P, k, s, m)
  {
    hide LoopKey, Generated, NestProg.Key, NestProg.WellFormed, Reached, Eval, NestClause, Done, Assumed, InBounds,
      Agrees, Lo, Hi, Val;
    if InBounds(P, k, s, m) {
      var cs := Reached(infos, P.Key(k), P.Depth());
      forall c | c in cs ensures P.out in c.outputs { ReachedMentionsOutput(P, g, infos, k, c, s, m); }
      forall p | |p| == P.Depth()
        ensures (exists c | c in cs :: InRanges(P, c, p, s, m)) <==> InBox(P, p, s, m) && Before(P, k, p, s)
      {
        LexicographicPrefix(P, g, infos, k, p, s, m);
      }
    }
  }

  lemma ReachedMentionsOutput(P: NestProg, g: Tables, infos: map<string, Info>, k: nat, c: Clause, s: State, m: Model)
    requires P.WellFormed() && Generated(P, g, infos) && Assumed(P, s, m) && k < P.Depth()
    requires c in Reached(infos, P.Key(k), P.Depth())
    ensures P.out in c.outputs
  {
    hide LoopKey, Generated, NestProg.Key, NestProg.WellFormed, Reached, Assumed;
    ReachedClauses(P, g, infos, k, P.Depth());
    InClausesDown(P, k, c);
    var j :| 0 <= j <= k && c == NestClause(P, j);
    IndexMentionsAll(P, s, j, m);
  }
}
