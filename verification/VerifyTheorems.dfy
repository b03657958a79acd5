/** What the generated conditions are worth: soundness, relative completeness, and the one
    side condition the written replacer needs. */
module VerifyTheorems {
  import opened StencilIr
  import opened Interpret
  import opened Verify

  // ----- admissible states and validity -----

  /** Assigning to any of `xs` never leaves the admissible states. */
  ghost predicate Closed(admissible: State -> bool, xs: set<string>) {
    forall s, x, v {:trigger admissible(s[x := v])} | admissible(s) && x in xs :: admissible(s[x := v])
  }

  ghost predicate Valid(e: Exp, admissible: State -> bool, m: Model) {
    forall s | admissible(s) :: Holds(e, s, m)
  }

  ghost predicate AllValid(es: seq<Exp>, admissible: State -> bool, m: Model) {
    forall i | 0 <= i < |es| :: Valid(es[i], admissible, m)
  }

  lemma {:induction false} RunStaysAdmissible(c: Stmt, admissible: State -> bool, m: Model, s: State, n: nat)
    requires Closed(admissible, Assigned(c)) && admissible(s) && Run(c, s, n, m).Some?
    ensures admissible(Run(c, s, n, m).value)
    decreases n, c
  {
    match c
    case Seq(c1, c2) =>
      RunStaysAdmissible(c1, admissible, m, s, n);
      RunStaysAdmissible(c2, admissible, m, Run(c1, s, n, m).value, n);
    case While(_, test, body) =>
      if Holds(test, s, m) {
        RunStaysAdmissible(body, admissible, m, s, n - 1);
        RunStaysAdmissible(c, admissible, m, Run(body, s, n - 1, m).value, n - 1);
      }
    case _ =>
  }

  // ----- when the written replacer is good enough -----

  predicate PlainStmt(c: Stmt) {
    match c
    case Just(_) => true
    case AssignVar(_, e) => Plain(e)
    case AssignArr(_, loc, e) => Plain(loc) && Plain(e)
    case Seq(c1, c2) => PlainStmt(c1) && PlainStmt(c2)
    case While(_, test, body) => Plain(test) && PlainStmt(body)
  }

  /** Variables that may occur in keys of the formula in front of `c`, given those behind it. */
  function PendingKeys(c: Stmt, keys: set<string>): set<string> {
    match c
    case AssignArr(_, loc, _) => keys + Vars(loc)
    case Seq(c1, c2) => PendingKeys(c1, PendingKeys(c2, keys))
    case While(_, _, _) => {}
    case _ => keys
  }

  /** Between an assignment to `x` and the next loop (or the end), no array is written at an
      index that mentions `x`. */
  predicate KeySafe(c: Stmt, keys: set<string>) {
    match c
    case Just(_) => true
    case AssignVar(x, _) => x !in keys
    case AssignArr(a, _, _) => a !in keys
    case Seq(c1, c2) => KeySafe(c2, keys) && KeySafe(c1, PendingKeys(c2, keys))
    case While(_, _, body) => KeySafe(body, {})
  }

  /** Either keys are substituted too, or the program never needs it. */
  predicate Substitutable(c: Stmt, q: Exp, invs: map<string, Exp>, inKeys: bool, keys: set<string>) {
    inKeys || (PlainStmt(c) && KeySafe(c, keys) && KeyVars(q) <= keys && forall k | k in invs :: KeyVars(invs[k]) == {})
  }

  lemma PlainHasNoKeys(e: Exp)
    requires Plain(e)
    ensures KeyVars(e) == {}
  {
  }

  lemma {:induction false} ReplaceKeyVars(q: Exp, x: string, r: Exp)
    ensures KeyVars(Replace(q, x, r, false)) <= KeyVars(q) + KeyVars(r)
  {
    match q
    case Bin(a, _, b) => ReplaceKeyVars(a, x, r); ReplaceKeyVars(b, x, r);
    case Not(b) => ReplaceKeyVars(b, x, r);
    case Arr(a, loc) => ReplaceKeyVars(a, x, r); ReplaceKeyVars(loc, x, r);
    case Aug(a, k, v) => ReplaceKeyVars(a, x, r); ReplaceKeyVars(v, x, r);
    case Implies(a, c) => ReplaceKeyVars(a, x, r); ReplaceKeyVars(c, x, r);
    case Call(_, ps) =>
      forall i | 0 <= i < |ps| ensures KeyVars(Replace(ps[i], x, r, false)) <= KeyVars(q) + KeyVars(r) {
        ReplaceKeyVars(ps[i], x, r);
        assert KeyVars(ps[i]) <= KeyVars(q);
      }
    case _ =>
  }

  lemma {:induction false} WpKeyVars(c: Stmt, q: Exp, invs: map<string, Exp>, keys: set<string>)
    requires LoopKeys(c) <= invs.Keys && Substitutable(c, q, invs, false, keys)
    ensures Wp(c, q, invs, false).Some? && KeyVars(Wp(c, q, invs, false).value.pre) <= PendingKeys(c, keys)
  {
    hide Replace, LoopKey, Vars, Plain, Wp, KeyVars;
    WpDefined(c, q, invs, false);
    match c
    case Seq(c1, c2) =>
      WpSeq(c, q, invs, false);
      WpKeyVars(c2, q, invs, keys);
      WpKeyVars(c1, Wp(c2, q, invs, false).value.pre, invs, PendingKeys(c2, keys));
    case While(_, _, _) => LoopPre(c, q, invs);
    case _ => LeafKeyVars(c, q, invs);
  }

  lemma LoopPre(c: Stmt, q: Exp, invs: map<string, Exp>)
    requires c.While? && LoopKey(c) in invs && Wp(c, q, invs, false).Some? && KeyVars(invs[LoopKey(c)]) == {}
    ensures KeyVars(Wp(c, q, invs, false).value.pre) == {}
  {
    hide LoopKey, Replace;
  }

  lemma LeafKeyVars(c: Stmt, q: Exp, invs: map<string, Exp>)
    requires !c.Seq? && !c.While? && PlainStmt(c) && Wp(c, q, invs, false).Some?
    ensures KeyVars(Wp(c, q, invs, false).value.pre) <= KeyVars(q) + if c.AssignArr? then Vars(c.loc) else {}
  {
    hide Replace, LoopKey, Vars, Plain;
    match c
    case AssignVar(x, e) => PlainHasNoKeys(e); ReplaceKeyVars(q, x, e);
    case AssignArr(a, loc, e) => PlainHasNoKeys(e); ReplaceKeyVars(q, a, Aug(Var(a), loc, e));
    case _ =>
  }

  /** How `Substitutable` is inherited: to both halves of a sequence and into a loop body. */
  lemma SubstitutableSeq(c: Stmt, q: Exp, invs: map<string, Exp>, inKeys: bool, keys: set<string>)
    requires c.Seq? && LoopKeys(c) <= invs.Keys && Substitutable(c, q, invs, inKeys, keys)
    ensures Wp(c.last, q, invs, inKeys).Some?
    ensures Substitutable(c.last, q, invs, inKeys, keys)
    ensures Substitutable(c.init, Wp(c.last, q, invs, inKeys).value.pre, invs, inKeys, PendingKeys(c.last, keys))
  {
    WpDefined(c.last, q, invs, inKeys);
    if !inKeys { WpKeyVars(c.last, q, invs, keys); }
  }

  lemma SubstitutableLoop(c: Stmt, q: Exp, invs: map<string, Exp>, inKeys: bool, keys: set<string>)
    requires c.While? && LoopKey(c) in invs && Substitutable(c, q, invs, inKeys, keys)
    ensures Substitutable(c.body, invs[LoopKey(c)], invs, inKeys, {})
    ensures Substitutable(c, q, invs, inKeys, keys)
  {
    hide LoopKey, KeyVars;
  }

  lemma AssignedInBody(c: Stmt)
    requires c.While?
    ensures Assigned(c) == Assigned(c.body)
  {
  }

  // ----- loop-free programs: exactness -----

  lemma AssignExact(c: Stmt, q: Exp, invs: map<string, Exp>, inKeys: bool, keys: set<string>, s: State, n: nat,
                    m: Model)
    requires c.AssignVar? || c.AssignArr?
    requires Substitutable(c, q, invs, inKeys, keys)
    ensures Eval(Wp(c, q, invs, inKeys).value.pre, s, m) == Eval(q, Run(c, s, n, m).value, m)
  {
    var x, r := if c.AssignVar? then c.x else c.a, if c.AssignVar? then c.rval else Aug(Var(c.a), c.loc, c.rval);
    ReplaceMeetsItsPromise(q, x, r);
    ReplaceMeansAssign(q, x, r, s, m);
  }

  predicate LoopFree(c: Stmt) { LoopKeys(c) == {} }

  /** For loop-free code the generated precondition is the weakest one, in every model. */
  lemma {:induction false} LoopFreeExact(c: Stmt, q: Exp, invs: map<string, Exp>, inKeys: bool, keys: set<string>,
                                         s: State, n: nat, m: Model)
    requires LoopFree(c) && Substitutable(c, q, invs, inKeys, keys)
    ensures Wp(c, q, invs, inKeys).Some? && Wp(c, q, invs, inKeys).value.conds == []
    ensures Run(c, s, n, m).Some?
    ensures Eval(Wp(c, q, invs, inKeys).value.pre, s, m) == Eval(q, Run(c, s, n, m).value, m)
  {
    match c
    case Just(_) =>
    case Seq(c1, c2) =>
      SubstitutableSeq(c, q, invs, inKeys, keys);
      var v2 := Wp(c2, q, invs, inKeys).value;
      LoopFreeExact(c1, v2.pre, invs, inKeys, PendingKeys(c2, keys), s, n, m);
      LoopFreeExact(c2, q, invs, inKeys, keys, Run(c1, s, n, m).value, n, m);
    case While(_, _, _) => assert false;
    case _ => AssignExact(c, q, invs, inKeys, keys, s, n, m);
  }

  // ----- soundness -----

  /** If the returned formula holds in the initial state and every side condition is valid,
      each run that ends, ends in a state satisfying the postcondition. */
  lemma {:induction false} WpSound(c: Stmt, q: Exp, invs: map<string, Exp>, inKeys: bool, keys: set<string>,
                                   admissible: State -> bool, m: Model, s: State, n: nat)
    requires LoopKeys(c) <= invs.Keys && Substitutable(c, q, invs, inKeys, keys)
    requires Closed(admissible, Assigned(c)) && admissible(s)
    requires Wp(c, q, invs, inKeys).Some? && AllValid(Wp(c, q, invs, inKeys).value.conds, admissible, m)
    requires Holds(Wp(c, q, invs, inKeys).value.pre, s, m) && Run(c, s, n, m).Some?
    ensures Holds(q, Run(c, s, n, m).value, m)
    decreases n, c, 1
  {
    hide LoopKey, Replace, Eval;
    var v := Wp(c, q, invs, inKeys).value;
    match c
    case Just(_) =>
    case Seq(c1, c2) =>
      SubstitutableSeq(c, q, invs, inKeys, keys);
      var v2 := Wp(c2, q, invs, inKeys).value;
      var v1 := Wp(c1, v2.pre, invs, inKeys).value;
      ValidSplit(v2.conds, v1.conds, admissible, m);
      WpSound(c1, v2.pre, invs, inKeys, PendingKeys(c2, keys), admissible, m, s, n);
      RunStaysAdmissible(c1, admissible, m, s, n);
      WpSound(c2, q, invs, inKeys, keys, admissible, m, Run(c1, s, n, m).value, n);
    case While(_, _, _) => WhileSound(c, q, invs, inKeys, keys, admissible, m, s, n);
    case _ => AssignExact(c, q, invs, inKeys, keys, s, n, m);
  }

  /** One iteration: the step condition carries the invariant through the body. */
  lemma {:induction false} WhileSound(c: Stmt, q: Exp, invs: map<string, Exp>, inKeys: bool, keys: set<string>,
                                      admissible: State -> bool, m: Model, s: State, n: nat)
    requires c.While?
    requires LoopKeys(c) <= invs.Keys && Substitutable(c, q, invs, inKeys, keys)
    requires Closed(admissible, Assigned(c)) && admissible(s)
    requires Wp(c, q, invs, inKeys).Some? && AllValid(Wp(c, q, invs, inKeys).value.conds, admissible, m)
    requires Holds(Wp(c, q, invs, inKeys).value.pre, s, m) && Run(c, s, n, m).Some?
    ensures Holds(q, Run(c, s, n, m).value, m)
    decreases n, c, 0
  {
    hide LoopKey, Replace, KeyVars, Wp, Eval, Substitutable, Assigned;
    var inv := invs[LoopKey(c)];
    WpWhile(c, q, invs, inKeys);
    SubstitutableLoop(c, q, invs, inKeys, keys);
    AssignedInBody(c);
    var vb := Wp(c.body, inv, invs, inKeys).value;
    WhileValid(inv, c.test, q, vb, admissible, m);
    CondsMean(inv, c.test, q, s, m);
    CondsMean(inv, c.test, vb.pre, s, m);
    assert Holds(ExitCond(inv, c.test, q), s, m) && Holds(StepCond(inv, c.test, vb.pre), s, m);
    if Holds(c.test, s, m) {
      var t := Run(c.body, s, n - 1, m).value;
      WpSound(c.body, inv, invs, inKeys, {}, admissible, m, s, n - 1);
      RunStaysAdmissible(c.body, admissible, m, s, n - 1);
      CondsMean(inv, c.test, q, t, m);
      WhileSound(c, q, invs, inKeys, keys, admissible, m, t, n - 1);
    }
  }

  /** The two side conditions of a loop, read in a state. */
  lemma CondsMean(inv: Exp, test: Exp, q: Exp, s: State, m: Model)
    ensures Holds(ExitCond(inv, test, q), s, m) <==> (Holds(inv, s, m) && !Holds(test, s, m) ==> Holds(q, s, m))
    ensures Holds(StepCond(inv, test, q), s, m) <==> (Holds(inv, s, m) && Holds(test, s, m) ==> Holds(q, s, m))
    ensures Holds(Implies(True, inv), s, m) <==> Holds(inv, s, m)
  {
    EvalNot(test, s, m);
    EvalAnd(inv, Not(test), s, m);
    EvalAnd(inv, test, s, m);
    EvalImplies(Bin(inv, And, Not(test)), q, s, m);
    EvalImplies(Bin(inv, And, test), q, s, m);
    EvalImplies(True, inv, s, m);
    hide Eval;
  }

  lemma ValidSplit(a: seq<Exp>, b: seq<Exp>, admissible: State -> bool, m: Model)
    ensures AllValid(a + b, admissible, m) <==> AllValid(a, admissible, m) && AllValid(b, admissible, m)
  {
    if AllValid(a + b, admissible, m) {
      forall i | 0 <= i < |a| ensures Valid(a[i], admissible, m) { assert (a + b)[i] == a[i]; }
      forall i | 0 <= i < |b| ensures Valid(b[i], admissible, m) { assert (a + b)[|a| + i] == b[i]; }
    }
  }

  lemma WhileValid(inv: Exp, test: Exp, q: Exp, v: Vcs, admissible: State -> bool, m: Model)
    ensures AllValid([ExitCond(inv, test, q)] + v.conds + [StepCond(inv, test, v.pre)], admissible, m)
      <==> (&& Valid(ExitCond(inv, test, q), admissible, m) && AllValid(v.conds, admissible, m)
            && Valid(StepCond(inv, test, v.pre), admissible, m))
  {
    ValidSplit([ExitCond(inv, test, q)] + v.conds, [StepCond(inv, test, v.pre)], admissible, m);
    ValidSplit([ExitCond(inv, test, q)], v.conds, admissible, m);
    assert AllValid([ExitCond(inv, test, q)], admissible, m) <==> Valid(ExitCond(inv, test, q), admissible, m) by {
      assert [ExitCond(inv, test, q)][0] == ExitCond(inv, test, q);
    }
    assert AllValid([StepCond(inv, test, v.pre)], admissible, m)
      <==> Valid(StepCond(inv, test, v.pre), admissible, m) by {
      assert [StepCond(inv, test, v.pre)][0] == StepCond(inv, test, v.pre);
    }
  }

  /** Integer arithmetic as the interpreter evaluates it; comparing anything but two integers
      is not true (the interpreter raises). */
  ghost predicate Standard(m: Model) {
    && (forall a, b :: m.bin(Add, IntV(a), IntV(b)) == IntV(a + b))
    && (forall a, b :: m.bin(Lt, IntV(a), IntV(b)) == BoolV(a < b))
    && (forall a: Value, b: Value :: !(a.IntV? && b.IntV?) ==> !Truthy(m.bin(Lt, a, b)))
  }

  // `i = 1; a[i] = 3`, with postcondition `5 < a[1]`, started with i = 0 and a[1] = 7
  const SET_I := AssignVar("i", Num(1))
  const SET_A := AssignArr("a", Var("i"), Num(3))
  const WANTED := Bin(Num(5), Lt, Arr(Var("a"), Num(1)))
  const CLAIMED := Bin(Num(5), Lt, Arr(Aug(Var("a"), Var("i"), Num(3)), Num(1)))
  const START: State := map["i" := IntV(0), "a" := ArrV(map[1 := IntV(7)])]

  lemma KeysMatterGenerated()
    ensures Wp(Seq(SET_I, SET_A), WANTED, map[], false) == Some(Vcs(CLAIMED, []))
  {
    assert Wp(SET_A, WANTED, map[], false) == Some(Vcs(CLAIMED, []));
    assert Wp(SET_I, CLAIMED, map[], false) == Some(Vcs(CLAIMED, []));
    var none: seq<Exp> := [];
    assert none + none == none;
  }

  lemma NumAndVar(i: int, x: string, s: State, m: Model)
    ensures Eval(Num(i), s, m) == IntV(i) && Eval(Var(x), s, m) == Lookup(s, x)
  {
  }

  lemma KeysMatterRun(m: Model) returns (t: State)
    requires Standard(m)
    ensures Run(Seq(SET_I, SET_A), START, 0, m) == Some(t) && Lookup(t, "a") == ArrV(map[1 := IntV(3)])
  {
    hide Eval;
    var s := START["i" := IntV(1)];
    var cells: map<int, Value> := map[1 := IntV(7)];
    NumAndVar(1, "i", START, m);
    NumAndVar(3, "i", s, m);
    assert Run(SET_I, START, 0, m) == Some(s);
    assert Lookup(s, "a") == ArrV(cells) && Lookup(s, "i") == IntV(1);
    assert cells[1 := IntV(3)] == map[1 := IntV(3)];
    t := s["a" := ArrV(cells[1 := IntV(3)])];
  }

  lemma LessMeans(l: Exp, r: Exp, a: int, b: int, s: State, m: Model)
    requires Standard(m) && Eval(l, s, m) == IntV(a) && Eval(r, s, m) == IntV(b)
    ensures Holds(Bin(l, Lt, r), s, m) <==> a < b
  {
    assert Eval(Bin(l, Lt, r), s, m) == m.bin(Lt, IntV(a), IntV(b));
  }

  /** Reading an augmented array at another index. */
  lemma ReadPast(a: string, k: Exp, v: Exp, loc: Exp, cells: map<int, Value>, i: int, j: int, s: State, m: Model)
    requires Lookup(s, a) == ArrV(cells) && Eval(k, s, m) == IntV(i) && Eval(loc, s, m) == IntV(j) && i != j
    requires j in cells
    ensures Eval(Arr(Aug(Var(a), k, v), loc), s, m) == cells[j]
  {
    assert Eval(Aug(Var(a), k, v), s, m) == ArrV(cells[i := Eval(v, s, m)]);
  }

  lemma KeysMatterBefore(m: Model)
    requires Standard(m)
    ensures Holds(CLAIMED, START, m)
  {
    hide Eval;
    var cells: map<int, Value> := map[1 := IntV(7)];
    assert Lookup(START, "a") == ArrV(cells) && Lookup(START, "i") == IntV(0);
    NumAndVar(1, "i", START, m);
    NumAndVar(5, "i", START, m);
    ReadPast("a", Var("i"), Num(3), Num(1), cells, 0, 1, START, m);
    LessMeans(Num(5), Arr(Aug(Var("a"), Var("i"), Num(3)), Num(1)), 5, 7, START, m);
  }

  lemma KeysMatterAfter(m: Model, t: State)
    requires Standard(m) && Lookup(t, "a") == ArrV(map[1 := IntV(3)])
    ensures !Holds(WANTED, t, m)
  {
    assert Eval(Arr(Var("a"), Num(1)), t, m) == IntV(3);
    LessMeans(Num(5), Arr(Var("a"), Num(1)), 5, 3, t, m);
  }

  /** Without the side condition the written generator is unsound: here the only formula it
      returns holds in the initial state, and yet the run violates the postcondition. */
  lemma KeysMatter(m: Model)
    requires Standard(m)
    ensures !KeySafe(Seq(SET_I, SET_A), KeyVars(WANTED))
    ensures Wp(Seq(SET_I, SET_A), WANTED, map[], false) == Some(Vcs(CLAIMED, []))
    ensures Holds(CLAIMED, START, m)
    ensures Run(Seq(SET_I, SET_A), START, 0, m).Some?
    ensures !Holds(WANTED, Run(Seq(SET_I, SET_A), START, 0, m).value, m)
  {
    KeysMatterGenerated();
    KeysMatterBefore(m);
    var t := KeysMatterRun(m);
    KeysMatterAfter(m, t);
    assert "i" in PendingKeys(SET_A, KeyVars(WANTED));
  }

  /** The condition on keys is not necessary for a whole program: in `y = x; x = y; a[x] = 3` the
      wrong key is right again in front. */
  lemma KeysMayComeRight()
    ensures var c := Seq(Seq(AssignVar("y", Var("x")), AssignVar("x", Var("y"))), AssignArr("a", Var("x"), Num(3)));
      !KeySafe(c, {}) && Wp(c, WANTED, map[], false) == Wp(c, WANTED, map[], true)
  {
    var c1, c2, c3 := AssignVar("y", Var("x")), AssignVar("x", Var("y")), AssignArr("a", Var("x"), Num(3));
    var q := Bin(Num(5), Lt, Arr(Aug(Var("a"), Var("x"), Num(3)), Num(1)));
    var r := Bin(Num(5), Lt, Arr(Aug(Var("a"), Var("y"), Num(3)), Num(1)));
    assert "x" in PendingKeys(c3, {});
    assert Wp(c3, WANTED, map[], false) == Wp(c3, WANTED, map[], true) == Some(Vcs(q, []));
    assert Wp(c2, q, map[], false) == Some(Vcs(q, [])) && Wp(c2, q, map[], true) == Some(Vcs(r, []));
    assert Wp(c1, q, map[], false) == Wp(c1, r, map[], true) == Some(Vcs(q, []));
  }
}
