/** From formulas to an assert program (backend/assertion_to_sketch.py): implications are
    flattened and emitted as guarded asserts, augmented arrays are hoisted into array copies. */
module AssertionToSketch {
  import opened StencilIr
  import opened Interpret
  import opened GenerateSketch

  // ----- flattening implications -----

  predicate TwoImplications(e: Exp) {
    e.Bin? && e.op.And? && e.left.Implies? && e.right.Implies?
  }

  /** ImplicationSimplifier (assertion_to_sketch.py:6-25). An implication that matches neither
      pattern is returned as it is, without visiting its parts; keys and values of augmented
      arrays are not visited either. */
  function Simplify(e: Exp): Exp {
    match e
    case Implies(x, c) =>
      if c.Implies? then Implies(Bin(x, And, Simplify(c.ifx)), Simplify(c.cons))
      else if TwoImplications(c) then
        Bin(Implies(Bin(x, And, Simplify(c.left.ifx)), Simplify(c.left.cons)), And,
            Implies(Bin(x, And, Simplify(c.right.ifx)), Simplify(c.right.cons)))
      else e
    case Bin(l, op, r) => Bin(Simplify(l), op, Simplify(r))
    case Not(b) => Not(Simplify(b))
    case Arr(a, loc) => Arr(Simplify(a), Simplify(loc))
    case Aug(a, k, v) => Aug(Simplify(a), k, v)
    case Call(f, ps) => Call(f, SimplifyAll(ps))
    case _ => e
  }

  function SimplifyAll(ps: seq<Exp>): (r: seq<Exp>)
    ensures |r| == |ps| && forall i | 0 <= i < |ps| :: r[i] == Simplify(ps[i])
  {
    seq(|ps|, i requires 0 <= i < |ps| => Simplify(ps[i]))
  }

  lemma ImpliesValue(a: Exp, c: Exp, s: State, m: Model)
    ensures Eval(Implies(a, c), s, m) == BoolV(Holds(a, s, m) ==> Holds(c, s, m))
  {
  }

  lemma AndValue(a: Exp, b: Exp, s: State, m: Model)
    ensures Eval(Bin(a, And, b), s, m) == BoolV(Holds(a, s, m) && Holds(b, s, m))
  {
  }

  /** Moving an outer hypothesis inwards keeps the value. */
  lemma CurryValue(x: Exp, a: Exp, b: Exp, a': Exp, b': Exp, s: State, m: Model)
    requires Eval(a, s, m) == Eval(a', s, m) && Eval(b, s, m) == Eval(b', s, m)
    ensures Eval(Implies(x, Implies(a, b)), s, m) == Eval(Implies(Bin(x, And, a'), b'), s, m)
  {
    hide Eval;
    ImpliesValue(x, Implies(a, b), s, m);
    ImpliesValue(a, b, s, m);
    ImpliesValue(Bin(x, And, a'), b', s, m);
    AndValue(x, a', s, m);
  }

  /** Simplification preserves the value of every formula in every state and model. */
  lemma {:induction false} SimplifyPreservesMeaning(e: Exp, s: State, m: Model)
    ensures Eval(Simplify(e), s, m) == Eval(e, s, m)
  {
    match e
    case Implies(x, c) =>
      if c.Implies? {
        SimplifyPreservesMeaning(c.ifx, s, m);
        SimplifyPreservesMeaning(c.cons, s, m);
        CurryValue(x, c.ifx, c.cons, Simplify(c.ifx), Simplify(c.cons), s, m);
      } else if TwoImplications(c) {
        SimplifyPreservesMeaning(c.left.ifx, s, m);
        SimplifyPreservesMeaning(c.left.cons, s, m);
        SimplifyPreservesMeaning(c.right.ifx, s, m);
        SimplifyPreservesMeaning(c.right.cons, s, m);
        TwoValue(x, c.left, c.right, s, m);
      }
    case Bin(l, op, r) => SimplifyPreservesMeaning(l, s, m); SimplifyPreservesMeaning(r, s, m);
    case Not(b) => SimplifyPreservesMeaning(b, s, m);
    case Arr(a, loc) => SimplifyPreservesMeaning(a, s, m); SimplifyPreservesMeaning(loc, s, m);
    case Aug(a, _, _) => SimplifyPreservesMeaning(a, s, m);
    case Call(f, ps) =>
      forall i | 0 <= i < |ps|
        ensures Eval(Simplify(ps[i]), s, m) == Eval(ps[i], s, m)
      {
        SimplifyPreservesMeaning(ps[i], s, m);
      }
      assert EvalAll(SimplifyAll(ps), s, m) == EvalAll(ps, s, m);
    case _ =>
  }

  lemma TwoValue(x: Exp, l: Exp, r: Exp, s: State, m: Model)
    requires l.Implies? && r.Implies?
    requires Eval(Simplify(l.ifx), s, m) == Eval(l.ifx, s, m) && Eval(Simplify(l.cons), s, m) == Eval(l.cons, s, m)
    requires Eval(Simplify(r.ifx), s, m) == Eval(r.ifx, s, m) && Eval(Simplify(r.cons), s, m) == Eval(r.cons, s, m)
    ensures Eval(Simplify(Implies(x, Bin(l, And, r))), s, m) == Eval(Implies(x, Bin(l, And, r)), s, m)
  {
    hide Eval;
    var l' := Implies(Bin(x, And, Simplify(l.ifx)), Simplify(l.cons));
    var r' := Implies(Bin(x, And, Simplify(r.ifx)), Simplify(r.cons));
    CurryValue(x, l.ifx, l.cons, Simplify(l.ifx), Simplify(l.cons), s, m);
    CurryValue(x, r.ifx, r.cons, Simplify(r.ifx), Simplify(r.cons), s, m);
    ImpliesValue(x, l, s, m);
    ImpliesValue(x, r, s, m);
    ImpliesValue(x, Bin(l, And, r), s, m);
    AndValue(l, r, s, m);
    AndValue(l', r', s, m);
    assert Simplify(Implies(x, Bin(l, And, r))) == Bin(l', And, r');
  }

  // ----- emission -----

  /** `if (g1) { .. if (gn) { assert(e); } .. }` */
  datatype Check = Check(guards: seq<Exp>, e: Exp)

  function Guarded(a: Exp, checks: seq<Check>): seq<Check> {
    if a == True then checks
    else seq(|checks|, i requires 0 <= i < |checks| => Check([a] + checks[i].guards, checks[i].e))
  }

  /** What `visit` prints for a formula (assertion_to_sketch.py:61-66, 78-87). A consequent that
      already reads "assert.." is not wrapped again; one that reads "if .." is, and an `if`
      inside an `assert` is no program, nor is a bare expression: both are `None`. */
  function Emit(e: Exp): (r: Option<seq<Check>>)
    ensures r.Some? ==> r.value != []
  {
    if e.Implies? then
      if e.cons.Implies? || TwoImplications(e.cons) then
        var inner :- Emit(e.cons);
        if inner[0].guards == [] then Some(Guarded(e.ifx, inner)) else None
      else Some(Guarded(e.ifx, [Check([], e.cons)]))
    else if TwoImplications(e) then
      var l :- Emit(e.left);
      var r :- Emit(e.right);
      Some(l + r)
    else None
  }

  predicate Passes(c: Check, s: State, m: Model) {
    (forall i | 0 <= i < |c.guards| :: Holds(c.guards[i], s, m)) ==> Holds(c.e, s, m)
  }

  predicate AllPass(cs: seq<Check>, s: State, m: Model) {
    forall i | 0 <= i < |cs| :: Passes(cs[i], s, m)
  }

  lemma GuardedPasses(a: Exp, cs: seq<Check>, s: State, m: Model)
    ensures AllPass(Guarded(a, cs), s, m) <==> (Holds(a, s, m) ==> AllPass(cs, s, m))
  {
    hide Eval;
    EvalImplies(True, True, s, m);
    if a != True {
      forall i | 0 <= i < |cs| ensures Passes(Guarded(a, cs)[i], s, m) <==> (Holds(a, s, m) ==> Passes(cs[i], s, m)) {
        var gs := [a] + cs[i].guards;
        assert (forall j | 0 <= j < |gs| :: Holds(gs[j], s, m))
          <==> Holds(a, s, m) && forall j | 0 <= j < |cs[i].guards| :: Holds(cs[i].guards[j], s, m) by {
          assert gs[0] == a && forall j | 0 <= j < |cs[i].guards| :: gs[j + 1] == cs[i].guards[j];
        }
      }
    }
  }

  /** An emitted program violates none of its asserts exactly where the formula holds. */
  lemma {:induction false} EmitPreservesMeaning(e: Exp, s: State, m: Model)
    requires Emit(e).Some?
    ensures AllPass(Emit(e).value, s, m) <==> Holds(e, s, m)
  {
    hide Eval, Guarded;
    if e.Implies? {
      ImpliesValue(e.ifx, e.cons, s, m);
      if e.cons.Implies? || TwoImplications(e.cons) {
        EmitPreservesMeaning(e.cons, s, m);
        GuardedPasses(e.ifx, Emit(e.cons).value, s, m);
      } else {
        GuardedPasses(e.ifx, [Check([], e.cons)], s, m);
        assert AllPass([Check([], e.cons)], s, m) <==> Passes(Check([], e.cons), s, m) by {
          assert [Check([], e.cons)][0] == Check([], e.cons);
        }
      }
    } else {
      EmitPreservesMeaning(e.left, s, m);
      EmitPreservesMeaning(e.right, s, m);
      AndValue(e.left, e.right, s, m);
      PassesSplit(Emit(e.left).value, Emit(e.right).value, s, m);
    }
  }

  lemma PassesSplit(a: seq<Check>, b: seq<Check>, s: State, m: Model)
    ensures AllPass(a + b, s, m) <==> AllPass(a, s, m) && AllPass(b, s, m)
  {
    hide Passes;
    if AllPass(a + b, s, m) {
      forall i | 0 <= i < |a| ensures Passes(a[i], s, m) { assert (a + b)[i] == a[i]; }
      forall i | 0 <= i < |b| ensures Passes(b[i], s, m) { assert (a + b)[|a| + i] == b[i]; }
    }
  }

  /** The single guarded assert of a generated condition. */
  function CondCheck(e: Exp): Check
    requires CondShape(e)
  {
    if e.cons.Implies? then Check([Bin(e.ifx, And, True)], e.cons.cons) else Check([e.ifx], e.cons)
  }

  lemma CallFreeIsSimple(e: Exp)
    requires CallFree(e)
    ensures Simplify(e) == e && ImplFree(e)
  {
  }

  lemma LeafIsSimple(e: Exp)
    requires Leaf(e)
    ensures Simplify(e) == e && ImplFree(e)
  {
    hide CallFree;
    forall i | 0 <= i < |e.params|
      ensures Simplify(e.params[i]) == e.params[i] && ImplFree(e.params[i])
    {
      CallFreeIsSimple(e.params[i]);
    }
  }

  lemma SimplifyCond(e: Exp)
    requires CondShape(e)
    ensures Simplify(e) == Implies(CondCheck(e).guards[0], CondCheck(e).e) && CondCheck(e).e.Call?
    ensures ImplFree(CondCheck(e).e) && ImplFree(CondCheck(e).guards[0])
  {
    hide CallFree, Leaf;
    LeafIsCall(e.cons);
    LeafIsSimple(e.ifx.left);
    CallFreeIsSimple(e.ifx.right);
    assert ImplFree(e.ifx) && ImplFree(True);
    if e.cons.Implies? {
      LeafIsCall(e.cons.cons);
      LeafIsSimple(e.cons.cons);
      assert ImplFree(Bin(e.ifx, And, True));
    } else {
      LeafIsSimple(e.cons);
    }
  }

  lemma EmitGuarded(a: Exp, c: Exp)
    requires c.Call?
    ensures Emit(Implies(a, c)) == Some([Check(if a == True then [] else [a], c)])
  {
    var none: seq<Exp> := [];
    assert [a] + none == [a];
    assert Guarded(a, [Check([], c)]) == [Check(if a == True then [] else [a], c)];
  }

  /** After simplification every condition the generator (and the pointwise pass) yields becomes
      one assert under one guard, with no implication left in either. */
  lemma ConditionsAreEmittable(e: Exp)
    requires CondShape(e)
    ensures Emit(Simplify(e)) == Some([CondCheck(e)])
    ensures ImplFree(CondCheck(e).e) && ImplFree(CondCheck(e).guards[0])
  {
    hide CallFree, Leaf, Emit, Simplify;
    SimplifyCond(e);
    EmitGuarded(CondCheck(e).guards[0], CondCheck(e).e);
  }

  /** The returned formula becomes one bare assert exactly when it is `true -> C`, that is, when
      the program has a loop; for a loop-free program a bare call is printed, which checks nothing. */
  lemma PreIsEmittable(e: Exp)
    requires Consequent(e)
    ensures Emit(Simplify(e)).Some? <==> e.Implies?
    ensures e.Implies? ==> Emit(Simplify(e)) == Some([Check([], e.cons)]) && ImplFree(e.cons)
  {
    hide CallFree, Leaf;
    LeafIsCall(e);
    if e.Implies? {
      LeafIsCall(e.cons);
      LeafIsSimple(e.cons);
      EmitGuarded(True, e.cons);
    }
  }

  /** The pointwise pass stays within those shapes. */
  lemma RewriteStaysEmittable(e: Exp, loopvars: seq<string>)
    requires CondShape(e)
    ensures CondShape(Rewrite(e, false, loopvars).0)
  {
    hide CallFree;
    RewriteCond(e, loopvars);
    PointwiseCallIsLeaf(Final(e.cons), loopvars);
  }

  lemma PointwiseCallIsLeaf(call: Exp, loopvars: seq<string>)
    requires Leaf(call)
    ensures Leaf(PointwiseCall(call.fname, call.params, loopvars))
  {
    var xs := AsVars(PVars(loopvars));
    forall i | 0 <= i < |call.params + xs| ensures CallFree((call.params + xs)[i]) {
      if i >= |call.params| { assert (call.params + xs)[i] == xs[i - |call.params|]; }
    }
  }
}
