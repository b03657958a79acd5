/** The generated invariants discharge the generated conditions, for perfect nests of any depth. */
module NestVcs {
  import opened StencilIr
  import opened Interpret
  import opened Verify
  import opened VerifyTheorems
  import opened Termination
  import opened Invariant
  import opened Nest
  import opened NestMeaning

  // ----- the lexicographic prefix along a run -----

  /** Assigning a loop variable changes only its own value. */
  lemma SetVar(P: NestProg, s: State, j: nat, a: int, m: Model)
    requires P.WellFormed() && j < P.Depth()
    ensures var t := s[P.levels[j].v := IntV(a)];
      && (forall i | 0 <= i < P.Depth() :: Lo(P, i, t, m) == Lo(P, i, s, m) && Hi(P, i, t, m) == Hi(P, i, s, m))
      && (forall i | 0 <= i < P.Depth() && i != j :: Lookup(t, P.levels[i].v) == Lookup(s, P.levels[i].v))
      && Lookup(t, P.levels[j].v) == IntV(a)
      && (forall p :: InBox(P, p, t, m) == InBox(P, p, s, m))
      && (forall p | |p| == P.Depth() :: Done(P, p, t, m) == Done(P, p, s, m))
  {
    hide Eval, NestProg.Fixed, InBox, Idx, Rhs;
    SpaceFrame(P, s, P.levels[j].v, IntV(a), m);
  }

  /** Entering the outermost loop. */
  lemma PrefixAtStart(P: NestProg, s: State, m: Model)
    requires P.WellFormed() && Assumed(P, s, m)
    ensures Prefix(P, 0, s[P.levels[0].v := IntV(Lo(P, 0, s, m))], m)
  {
    hide NestProg.Fixed, Done;
    SetVar(P, s, 0, Lo(P, 0, s, m), m);
  }

  /** Entering loop `k + 1` in an iteration of loop `k`. */
  lemma PrefixOnEntry(P: NestProg, k: nat, s: State, m: Model)
    requires P.WellFormed() && Assumed(P, s, m) && k + 1 < P.Depth() && Prefix(P, k, s, m)
    requires Val(P, k, s) < Hi(P, k, s, m)
    ensures Prefix(P, k + 1, s[P.levels[k + 1].v := IntV(Lo(P, k + 1, s, m))], m)
  {
    hide NestProg.WellFormed, Done, Lo, Hi;
    var t := s[P.levels[k + 1].v := IntV(Lo(P, k + 1, s, m))];
    SetVar(P, s, k + 1, Lo(P, k + 1, s, m), m);
    forall p | InBox(P, p, t, m) && Before(P, k + 1, p, t) ensures Before(P, k, p, s) {
      var j :| 0 <= j <= k + 1 && Agrees(P, j, p, t) && p[j] < Val(P, j, t);
      assert j <= k;
      assert Agrees(P, j, p, s);
    }
  }

  /** Loop `k` has ended: the iteration of loop `k - 1` is complete. */
  lemma PrefixOnExit(P: NestProg, k: nat, s: State, m: Model)
    requires P.WellFormed() && 0 < k < P.Depth() && Prefix(P, k, s, m) && Val(P, k, s) >= Hi(P, k, s, m)
    ensures Prefix(P, k - 1, s[P.levels[k - 1].v := IntV(Val(P, k - 1, s) + 1)], m)
  {
    hide NestProg.WellFormed, Done, Lo, Hi;
    var t := s[P.levels[k - 1].v := IntV(Val(P, k - 1, s) + 1)];
    SetVar(P, s, k - 1, Val(P, k - 1, s) + 1, m);
    forall p | InBox(P, p, t, m) && Before(P, k - 1, p, t) ensures Before(P, k, p, s) {
      var j :| 0 <= j <= k - 1 && Agrees(P, j, p, t) && p[j] < Val(P, j, t);
      assert Agrees(P, j, p, s);
      if j == k - 1 && p[j] == Val(P, j, s) {
        assert Agrees(P, k, p, s) && p[k] < Val(P, k, s);
      } else {
        assert p[j] < Val(P, j, s);
      }
    }
  }

  /** The outermost loop has ended. */
  lemma PrefixAtEnd(P: NestProg, s: State, m: Model)
    requires P.WellFormed() && Prefix(P, 0, s, m) && Val(P, 0, s) >= Hi(P, 0, s, m)
    ensures AllDone(P, s, m)
  {
    hide NestProg.Fixed, Done, Lo, Hi;
    forall p | InBox(P, p, s, m) ensures Before(P, 0, p, s) { assert Agrees(P, 0, p, s) && p[0] < Val(P, 0, s); }
  }

  // ----- the innermost body -----

  /** The current iteration as a point. */
  function Now(P: NestProg, s: State): seq<int> {
    seq(P.Depth(), i requires 0 <= i < P.Depth() => Val(P, i, s))
  }

  function WriteLeaf(P: NestProg, s: State, m: Model): State {
    s[P.out := Store(Lookup(s, P.out), Eval(P.idx, s, m), Eval(P.rhs, s, m))]
  }

  ghost predicate InLastLoop(P: NestProg, s: State, m: Model)
    requires P.WellFormed()
  {
    && Prefix(P, P.Depth() - 1, s, m)
    && Val(P, P.Depth() - 1, s) < Hi(P, P.Depth() - 1, s, m)
  }

  lemma NowInBox(P: NestProg, s: State, m: Model)
    requires P.WellFormed() && InLastLoop(P, s, m)
    ensures InBox(P, Now(P, s), s, m)
    ensures Idx(P, Now(P, s), s, m) == Eval(P.idx, s, m) && Rhs(P, Now(P, s), s, m) == Eval(P.rhs, s, m)
  {
    hide NestProg.WellFormed, Done, Lo, Hi, Eval, At;
    AtCurrent(P, P.idx, s, Now(P, s), m);
    AtCurrent(P, P.rhs, s, Now(P, s), m);
  }

  /** Writing the current point completes it and, the index being injective, undoes no other. */
  lemma WriteCompletes(P: NestProg, s: State, p: seq<int>, m: Model)
    requires P.WellFormed() && Assumed(P, s, m) && InLastLoop(P, s, m) && InBox(P, p, s, m)
    requires p == Now(P, s) || Done(P, p, s, m)
    ensures Done(P, p, WriteLeaf(P, s, m), m)
  {
    hide NestProg.WellFormed, InLastLoop, InBox, Idx, Rhs, Eval, Now;
    var x := Store(Lookup(s, P.out), Eval(P.idx, s, m), Eval(P.rhs, s, m));
    NowInBox(P, s, m);
    BoxDepth(P, p, s, m);
    SpaceFrame(P, s, P.out, x, m);
  }

  /** One iteration of the innermost loop. */
  lemma PrefixAfterLeaf(P: NestProg, s: State, m: Model)
    requires P.WellFormed() && Assumed(P, s, m) && InLastLoop(P, s, m)
    ensures var k := P.Depth() - 1;
      Prefix(P, k, WriteLeaf(P, s, m)[P.levels[k].v := IntV(Val(P, k, s) + 1)], m)
  {
    hide NestProg.Fixed, Done, Lo, Hi, Eval, Assumed, Idx, Rhs;
    var k := P.Depth() - 1;
    var u := WriteLeaf(P, s, m);
    var t := u[P.levels[k].v := IntV(Val(P, k, s) + 1)];
    LeafFrame(P, s, m);
    SetVar(P, u, k, Val(P, k, s) + 1, m);
    forall p | InBox(P, p, t, m) && Before(P, k, p, t) ensures Done(P, p, t, m) {
      var j :| 0 <= j <= k && Agrees(P, j, p, t) && p[j] < Val(P, j, t);
      assert Agrees(P, j, p, s);
      if j == k && p[j] == Val(P, j, s) {
        assert p == Now(P, s);
      } else {
        assert p[j] < Val(P, j, s);
        assert Before(P, k, p, s);
      }
      WriteCompletes(P, s, p, m);
    }
  }

  lemma LeafFrame(P: NestProg, s: State, m: Model)
    requires P.WellFormed()
    ensures var u := WriteLeaf(P, s, m);
      && (forall i | 0 <= i < P.Depth() :: Lo(P, i, u, m) == Lo(P, i, s, m) && Hi(P, i, u, m) == Hi(P, i, s, m))
      && (forall i | 0 <= i < P.Depth() :: Lookup(u, P.levels[i].v) == Lookup(s, P.levels[i].v))
      && (forall p :: InBox(P, p, u, m) == InBox(P, p, s, m))
  {
    hide Eval, NestProg.Fixed, InBox, Idx, Rhs;
    SpaceFrame(P, s, P.out, Store(Lookup(s, P.out), Eval(P.idx, s, m), Eval(P.rhs, s, m)), m);
  }

  // ----- the generated conditions -----

  function Test(P: NestProg, k: nat): Exp
    requires k < P.Depth()
  {
    Bin(Var(P.levels[k].v), Lt, P.levels[k].hi)
  }

  /** What must hold behind loop `k`: the postcondition, or the invariant of loop `k - 1` with
      its variable advanced. */
  function Goal(P: NestProg, k: nat, q: Exp, invs: map<string, Exp>): Exp
    requires k <= P.Depth() && forall j | 0 <= j < P.Depth() :: P.Key(j) in invs
  {
    if k == 0 then q else Replace(invs[P.Key(k - 1)], P.levels[k - 1].v, Incr(P.levels[k - 1].v).rval, false)
  }

  /** What must hold in front of it. */
  function PreOf(P: NestProg, k: nat, q: Exp, invs: map<string, Exp>): Exp
    requires k <= P.Depth() && forall j | 0 <= j < P.Depth() :: P.Key(j) in invs
  {
    if k == P.Depth() then Replace(Goal(P, k, q, invs), P.out, Aug(Var(P.out), P.idx, P.rhs), false)
    else Replace(Implies(True, invs[P.Key(k)]), P.levels[k].v, P.levels[k].lo, false)
  }

  function CondsOf(P: NestProg, k: nat, q: Exp, invs: map<string, Exp>): seq<Exp>
    requires k <= P.Depth() && forall j | 0 <= j < P.Depth() :: P.Key(j) in invs
    decreases P.Depth() - k
  {
    if k == P.Depth() then []
    else ([ExitCond(invs[P.Key(k)], Test(P, k), Goal(P, k, q, invs))] + CondsOf(P, k + 1, q, invs)
          + [StepCond(invs[P.Key(k)], Test(P, k), PreOf(P, k + 1, q, invs))])
  }

  lemma BodyConditions(P: NestProg, k: nat, q: Exp, invs: map<string, Exp>)
    requires k < P.Depth() && forall j | 0 <= j < P.Depth() :: P.Key(j) in invs
    requires Wp(P.From(k + 1), Goal(P, k + 1, q, invs), invs, false)
      == Some(Vcs(PreOf(P, k + 1, q, invs), CondsOf(P, k + 1, q, invs)))
    ensures Wp(P.Body(k), invs[P.Key(k)], invs, false)
      == Some(Vcs(PreOf(P, k + 1, q, invs), CondsOf(P, k + 1, q, invs)))
  {
    hide LoopKey, Replace, NestProg.Key, NestProg.From, PreOf, CondsOf;
    var inv := invs[P.Key(k)];
    assert P.Body(k) == Seq(P.From(k + 1), Incr(P.levels[k].v));
    assert Wp(Incr(P.levels[k].v), inv, invs, false) == Some(Vcs(Goal(P, k + 1, q, invs), []));
    WpSeq(P.Body(k), inv, invs, false);
    assert [] + CondsOf(P, k + 1, q, invs) == CondsOf(P, k + 1, q, invs);
  }

  lemma FromConditions(P: NestProg, k: nat, q: Exp, invs: map<string, Exp>)
    requires k < P.Depth() && forall j | 0 <= j < P.Depth() :: P.Key(j) in invs
    requires Wp(P.Loop(k), Goal(P, k, q, invs), invs, false)
      == Some(Vcs(Implies(True, invs[P.Key(k)]), CondsOf(P, k, q, invs)))
    ensures Wp(P.From(k), Goal(P, k, q, invs), invs, false) == Some(Vcs(PreOf(P, k, q, invs), CondsOf(P, k, q, invs)))
  {
    hide LoopKey, Replace, NestProg.Key, NestProg.Loop, Goal, CondsOf;
    assert P.From(k) == Seq(P.Start(k), P.Loop(k));
    assert Wp(P.Start(k), Implies(True, invs[P.Key(k)]), invs, false) == Some(Vcs(PreOf(P, k, q, invs), []));
    WpSeq(P.From(k), Goal(P, k, q, invs), invs, false);
    assert CondsOf(P, k, q, invs) + [] == CondsOf(P, k, q, invs);
  }

  /** The conditions of a nest, in closed form. */
  lemma {:induction false} NestConditions(P: NestProg, k: nat, q: Exp, invs: map<string, Exp>)
    requires k <= P.Depth() && forall j | 0 <= j < P.Depth() :: P.Key(j) in invs
    ensures Wp(P.From(k), Goal(P, k, q, invs), invs, false) == Some(Vcs(PreOf(P, k, q, invs), CondsOf(P, k, q, invs)))
    decreases P.Depth() - k
  {
    hide LoopKey, Replace, NestProg.Loop, Goal, Wp;
    if k == P.Depth() {
      LeafConditions(P, q, invs);
    } else {
      NestConditions(P, k + 1, q, invs);
      BodyConditions(P, k, q, invs);
      LoopShape(P, k);
      LoopKeysFrom(P, k);
      LoopKeysOfLoop(P, k);
      WpWhile(P.Loop(k), Goal(P, k, q, invs), invs, false);
      FromConditions(P, k, q, invs);
    }
  }

  lemma LoopKeysOfLoop(P: NestProg, k: nat)
    requires k < P.Depth()
    ensures LoopKeys(P.Loop(k)) == LoopKeys(P.From(k)) && LoopKey(P.Loop(k)) == P.Key(k)
  {
    hide LoopKey;
    assert LoopKeys(P.Start(k)) == {};
  }

  lemma LeafConditions(P: NestProg, q: Exp, invs: map<string, Exp>)
    requires forall j | 0 <= j < P.Depth() :: P.Key(j) in invs
    ensures var k := P.Depth();
      Wp(P.From(k), Goal(P, k, q, invs), invs, false) == Some(Vcs(PreOf(P, k, q, invs), []))
  {
    hide LoopKey, Replace, NestProg.Key, Goal;
  }

  // ----- they are valid -----

  lemma SubstHolds(q: Exp, x: string, r: Exp, s: State, m: Model)
    requires x !in KeyVars(q)
    ensures Holds(Replace(q, x, r, false), s, m) <==> Holds(q, s[x := Eval(r, s, m)], m)
  {
    hide Eval, Replace, KeyVars;
    ReplaceMeetsItsPromise(q, x, r);
    ReplaceMeansAssign(q, x, r, s, m);
  }

  /** `m` reads every invariant call as what the generated invariant says. */
  ghost predicate Reads(P: NestProg, infos: map<string, Info>, invs: map<string, Exp>, m: Model)
    requires P.WellFormed()
  {
    && (forall k | 0 <= k < P.Depth() :: P.Key(k) in invs && KeyVars(invs[P.Key(k)]) == {})
    && forall k, s | 0 <= k < P.Depth() && Admissible(P, m)(s) ::
      Holds(invs[P.Key(k)], s, m) <==> Means(P, infos, k, s, m)
  }

  lemma ReadsKeys(P: NestProg, infos: map<string, Info>, invs: map<string, Exp>, m: Model)
    requires P.WellFormed() && Reads(P, infos, invs, m)
    ensures forall j | 0 <= j < P.Depth() :: P.Key(j) in invs
  {
    hide NestProg.Key, KeyVars;
  }

  lemma ReadsPrefix(P: NestProg, g: Tables, infos: map<string, Info>, invs: map<string, Exp>, k: nat, s: State,
                    m: Model)
    requires P.WellFormed() && Standard(m) && Generated(P, g, infos) && Reads(P, infos, invs, m) && k < P.Depth()
    requires Assumed(P, s, m)
    ensures P.Key(k) in invs && KeyVars(invs[P.Key(k)]) == {}
    ensures Holds(invs[P.Key(k)], s, m) <==> Prefix(P, k, s, m)
  {
    hide NestProg.WellFormed, Generated, Means, Prefix, Holds, NestProg.Key, Assumed, KeyVars;
    MeansPrefix(P, g, infos, k, s, m);
    assert Admissible(P, m)(s);
  }

  lemma TestMeans(P: NestProg, k: nat, s: State, m: Model)
    requires P.WellFormed() && Standard(m) && Assumed(P, s, m) && k < P.Depth() && Lookup(s, P.levels[k].v).IntV?
    ensures Holds(Test(P, k), s, m) <==> Val(P, k, s) < Hi(P, k, s, m)
  {
    hide NestProg.WellFormed, Idx, InBox;
    LessMeans(Var(P.levels[k].v), P.levels[k].hi, Val(P, k, s), Hi(P, k, s, m), s, m);
  }

  lemma IncrMeans(v: string, s: State, m: Model)
    requires Standard(m) && Lookup(s, v).IntV?
    ensures Eval(Incr(v).rval, s, m) == IntV(Lookup(s, v).i + 1)
  {
    EvalVar(v, s, m);
    assert Eval(Incr(v).rval, s, m) == m.bin(Add, Eval(Var(v), s, m), IntV(1));
  }

  /** The goal behind loop `k > 0`, read in a state: the invariant of loop `k - 1` one step on. */
  lemma GoalHolds(P: NestProg, g: Tables, infos: map<string, Info>, invs: map<string, Exp>, k: nat, q: Exp, s: State,
                  m: Model)
    requires P.WellFormed() && Standard(m) && Generated(P, g, infos) && Reads(P, infos, invs, m) && 0 < k <= P.Depth()
    requires Assumed(P, s, m)
    requires Lookup(s, P.levels[k - 1].v).IntV?
    ensures Holds(Goal(P, k, q, invs), s, m)
      <==> Prefix(P, k - 1, s[P.levels[k - 1].v := IntV(Val(P, k - 1, s) + 1)], m)
  {
    hide NestProg.WellFormed, Generated, Reads, Prefix, Eval, Replace, NestProg.Key, KeyVars, Assumed, Standard;
    var v := P.levels[k - 1].v;
    IncrMeans(v, s, m);
    AssumedFrame(P, s, v, IntV(Val(P, k - 1, s) + 1), m);
    ReadsPrefix(P, g, infos, invs, k - 1, s[v := IntV(Val(P, k - 1, s) + 1)], m);
    SubstHolds(invs[P.Key(k - 1)], v, Incr(v).rval, s, m);
  }

  /** The formula in front of loop `k`, read in a state: its invariant at the first iteration. */
  lemma PreHolds(P: NestProg, g: Tables, infos: map<string, Info>, invs: map<string, Exp>, k: nat, q: Exp, s: State,
                 m: Model)
    requires P.WellFormed() && Standard(m) && Generated(P, g, infos) && Reads(P, infos, invs, m) && k < P.Depth()
    requires Assumed(P, s, m)
    ensures Holds(PreOf(P, k, q, invs), s, m) <==> Prefix(P, k, s[P.levels[k].v := IntV(Lo(P, k, s, m))], m)
  {
    hide NestProg.WellFormed, Generated, Reads, Prefix, Eval, Replace, NestProg.Key, Standard, InBox, Idx;
    var v := P.levels[k].v;
    var t := s[v := IntV(Lo(P, k, s, m))];
    AssumedFrame(P, s, v, IntV(Lo(P, k, s, m)), m);
    ReadsPrefix(P, g, infos, invs, k, t, m);
    var inv := invs[P.Key(k)];
    assert KeyVars(Implies(True, inv)) == {};
    SubstHolds(Implies(True, inv), v, P.levels[k].lo, s, m);
    EvalImplies(True, inv, t, m);
  }

  /** The same for the innermost statement. */
  lemma LeafPreHolds(P: NestProg, g: Tables, infos: map<string, Info>, invs: map<string, Exp>, q: Exp, s: State,
                     m: Model)
    requires P.WellFormed() && Standard(m) && Generated(P, g, infos) && Reads(P, infos, invs, m) && Assumed(P, s, m)
    requires InLastLoop(P, s, m)
    ensures Holds(PreOf(P, P.Depth(), q, invs), s, m)
  {
    hide NestProg.Fixed, Generated, Reads, Eval, Replace, NestProg.Key, KeyVars, Assumed, Standard, Done, InBox, Before;
    ReadsKeys(P, infos, invs, m);
    var k := P.Depth() - 1;
    var u := WriteLeaf(P, s, m);
    var goal := Goal(P, P.Depth(), q, invs);
    AssumedFrame(P, s, P.out, u[P.out], m);
    LeafFrame(P, s, m);
    GoalHolds(P, g, infos, invs, P.Depth(), q, u, m);
    PrefixAfterLeaf(P, s, m);
    GoalHasNoKeys(P, g, infos, invs, q, s, m);
    AugMeans(P, s, m);
    SubstHolds(goal, P.out, Aug(Var(P.out), P.idx, P.rhs), s, m);
  }

  lemma AugMeans(P: NestProg, s: State, m: Model)
    ensures s[P.out := Eval(Aug(Var(P.out), P.idx, P.rhs), s, m)] == WriteLeaf(P, s, m)
  {
    EvalVar(P.out, s, m);
  }

  lemma GoalHasNoKeys(P: NestProg, g: Tables, infos: map<string, Info>, invs: map<string, Exp>, q: Exp, s: State,
                      m: Model)
    requires P.WellFormed() && Standard(m) && Generated(P, g, infos) && Reads(P, infos, invs, m) && Assumed(P, s, m)
    ensures KeyVars(Goal(P, P.Depth(), q, invs)) == {}
  {
    hide Replace, NestProg.Key, Eval, Standard, Generated, Assumed, NestProg.Fixed;
    var v := P.levels[P.Depth() - 1].v;
    ReadsPrefix(P, g, infos, invs, P.Depth() - 1, s, m);
    ReplaceKeyVars(invs[P.Key(P.Depth() - 1)], v, Incr(v).rval);
    IncrShape(v);
    PlainHasNoKeys(Incr(v).rval);
  }

  lemma ExitValid(P: NestProg, g: Tables, infos: map<string, Info>, invs: map<string, Exp>, k: nat, q: Exp, s: State,
                  m: Model)
    requires P.WellFormed() && Standard(m) && Generated(P, g, infos) && Reads(P, infos, invs, m) && k < P.Depth()
    requires Assumed(P, s, m)
    requires AllDone(P, s, m) ==> Holds(q, s, m)
    ensures Holds(ExitCond(invs[P.Key(k)], Test(P, k), Goal(P, k, q, invs)), s, m)
  {
    hide NestProg.WellFormed, Generated, Reads, Eval, Replace, NestProg.Key, KeyVars, Assumed, Standard, Done, InBox,
      Before, AllDone;
    ReadsKeys(P, infos, invs, m);
    ReadsPrefix(P, g, infos, invs, k, s, m);
    CondsMean(invs[P.Key(k)], Test(P, k), Goal(P, k, q, invs), s, m);
    if Prefix(P, k, s, m) && !Holds(Test(P, k), s, m) {
      TestMeans(P, k, s, m);
      if k == 0 {
        PrefixAtEnd(P, s, m);
      } else {
        GoalHolds(P, g, infos, invs, k, q, s, m);
        PrefixOnExit(P, k, s, m);
      }
    }
  }

  lemma StepValid(P: NestProg, g: Tables, infos: map<string, Info>, invs: map<string, Exp>, k: nat, q: Exp, s: State,
                  m: Model)
    requires P.WellFormed() && Standard(m) && Generated(P, g, infos) && Reads(P, infos, invs, m) && k < P.Depth()
    requires Assumed(P, s, m)
    ensures Holds(StepCond(invs[P.Key(k)], Test(P, k), PreOf(P, k + 1, q, invs)), s, m)
  {
    hide NestProg.WellFormed, Generated, Reads, Eval, Replace, NestProg.Key, KeyVars, Assumed, Standard, Done, InBox,
      Before, AllDone, Goal, PreOf;
    ReadsKeys(P, infos, invs, m);
    ReadsPrefix(P, g, infos, invs, k, s, m);
    CondsMean(invs[P.Key(k)], Test(P, k), PreOf(P, k + 1, q, invs), s, m);
    if Prefix(P, k, s, m) && Holds(Test(P, k), s, m) {
      TestMeans(P, k, s, m);
      if k + 1 == P.Depth() {
        LeafPreHolds(P, g, infos, invs, q, s, m);
      } else {
        PreHolds(P, g, infos, invs, k + 1, q, s, m);
        PrefixOnEntry(P, k, s, m);
      }
    }
  }

  lemma {:induction false} CondsValid(P: NestProg, g: Tables, infos: map<string, Info>, invs: map<string, Exp>, k: nat,
                                      q: Exp, m: Model)
    requires P.WellFormed() && Standard(m) && Generated(P, g, infos) && Reads(P, infos, invs, m) && k <= P.Depth()
    requires forall s | Admissible(P, m)(s) && AllDone(P, s, m) :: Holds(q, s, m)
    ensures forall j | 0 <= j < P.Depth() :: P.Key(j) in invs
    ensures AllValid(CondsOf(P, k, q, invs), Admissible(P, m), m)
    decreases P.Depth() - k
  {
    hide NestProg.WellFormed, Generated, Eval, Replace, NestProg.Key, KeyVars, Assumed, Standard, AllDone, Goal, PreOf,
      Means, Test;
    if k < P.Depth() {
      CondsValid(P, g, infos, invs, k + 1, q, m);
      var inv, test := invs[P.Key(k)], Test(P, k);
      forall s | Admissible(P, m)(s)
        ensures Holds(ExitCond(inv, test, Goal(P, k, q, invs)), s, m)
        ensures Holds(StepCond(inv, test, PreOf(P, k + 1, q, invs)), s, m)
      {
        ExitValid(P, g, infos, invs, k, q, s, m);
        StepValid(P, g, infos, invs, k, q, s, m);
      }
      WhileValid(inv, test, Goal(P, k, q, invs), Vcs(PreOf(P, k + 1, q, invs), CondsOf(P, k + 1, q, invs)),
                 Admissible(P, m), m);
    }
  }

  /** For a perfect nest of any depth, the generated invariants make the returned formula and
      every side condition valid, for any postcondition that follows from "every point is done". */
  lemma InvariantsDischargeConditions(P: NestProg, g: Tables, infos: map<string, Info>, invs: map<string, Exp>, q: Exp,
                                      m: Model)
    requires P.WellFormed() && Standard(m) && Generated(P, g, infos) && Reads(P, infos, invs, m)
    requires forall s | Admissible(P, m)(s) && AllDone(P, s, m) :: Holds(q, s, m)
    ensures Wp(P.Program(), q, invs, false).Some?
    ensures AllValid(Wp(P.Program(), q, invs, false).value.conds, Admissible(P, m), m)
    ensures Valid(Wp(P.Program(), q, invs, false).value.pre, Admissible(P, m), m)
  {
    hide NestProg.Fixed, Generated, Eval, Replace, NestProg.Key, KeyVars, Assumed, Standard, AllDone, Means, Wp,
      NestProg.From, PreOf;
    CondsValid(P, g, infos, invs, 0, q, m);
    NestConditions(P, 0, q, invs);
    forall s | Admissible(P, m)(s) ensures Holds(PreOf(P, 0, q, invs), s, m) {
      PreHolds(P, g, infos, invs, 0, q, s, m);
      PrefixAtStart(P, s, m);
    }
  }
}
