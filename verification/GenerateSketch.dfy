/** The shapes of generated conditions, and the pass that makes invariants in consequents
    pointwise (backend/generate_sketch.py:12-34, 195-214). */
module GenerateSketch {
  import opened StencilIr
  import opened Interpret
  import opened Verify
  import opened VerifyTheorems

  // ----- shapes -----

  predicate ImplFree(e: Exp) {
    match e
    case Bin(l, _, r) => ImplFree(l) && ImplFree(r)
    case Not(b) => ImplFree(b)
    case Arr(a, loc) => ImplFree(a) && ImplFree(loc)
    case Aug(a, k, v) => ImplFree(a) && ImplFree(k) && ImplFree(v)
    case Call(_, ps) => forall i | 0 <= i < |ps| :: ImplFree(ps[i])
    case Implies(_, _) => false
    case _ => true
  }

  predicate CallFree(e: Exp) {
    match e
    case Bin(l, _, r) => CallFree(l) && CallFree(r)
    case Not(b) => CallFree(b)
    case Arr(a, loc) => CallFree(a) && CallFree(loc)
    case Aug(a, k, v) => CallFree(a) && CallFree(k) && CallFree(v)
    case Call(_, _) => false
    case Implies(_, _) => false
    case _ => true
  }

  /** One call whose arguments contain none. */
  predicate Leaf(e: Exp) {
    e.Call? && forall i | 0 <= i < |e.params| :: CallFree(e.params[i])
  }

  /** `C` or `true -> C`. */
  predicate Consequent(e: Exp) {
    Leaf(e) || (e.Implies? && e.ifx == True && Leaf(e.cons))
  }

  /** The call a consequent ends in. */
  function Final(e: Exp): Exp
    requires Consequent(e)
  {
    if e.Call? then e else e.cons
  }

  /** `H -> C` or `H -> (true -> C)`, where `H` is an invariant call and a call-free test. */
  predicate CondShape(e: Exp) {
    e.Implies? && e.ifx.Bin? && e.ifx.op.And? && Leaf(e.ifx.left) && CallFree(e.ifx.right) && Consequent(e.cons)
  }

  lemma {:induction false} ReplaceKeepsCallFree(e: Exp, x: string, r: Exp, inKeys: bool)
    requires CallFree(e) && CallFree(r)
    ensures CallFree(Replace(e, x, r, inKeys))
  {
    match e
    case Bin(l, _, b) => ReplaceKeepsCallFree(l, x, r, inKeys); ReplaceKeepsCallFree(b, x, r, inKeys);
    case Not(b) => ReplaceKeepsCallFree(b, x, r, inKeys);
    case Arr(a, loc) => ReplaceKeepsCallFree(a, x, r, inKeys); ReplaceKeepsCallFree(loc, x, r, inKeys);
    case Aug(a, k, v) =>
      ReplaceKeepsCallFree(a, x, r, inKeys);
      ReplaceKeepsCallFree(k, x, r, inKeys);
      ReplaceKeepsCallFree(v, x, r, inKeys);
    case _ =>
  }

  lemma ReplaceKeepsLeaf(e: Exp, x: string, r: Exp, inKeys: bool)
    requires Leaf(e) && CallFree(r)
    ensures Leaf(Replace(e, x, r, inKeys))
  {
    hide CallFree;
    forall i | 0 <= i < |e.params| ensures CallFree(Replace(e.params[i], x, r, inKeys)) {
      ReplaceKeepsCallFree(e.params[i], x, r, inKeys);
    }
  }

  lemma ReplaceKeepsConsequent(e: Exp, x: string, r: Exp, inKeys: bool)
    requires Consequent(e) && CallFree(r)
    ensures Consequent(Replace(e, x, r, inKeys))
    ensures Replace(e, x, r, inKeys).Implies? == e.Implies?
  {
    hide CallFree, Leaf;
    assert Leaf(e) ==> e.Call? by { LeafIsCall(e); }
    if e.Implies? {
      ReplaceKeepsLeaf(e.cons, x, r, inKeys);
      assert Replace(e, x, r, inKeys) == Implies(True, Replace(e.cons, x, r, inKeys));
    } else {
      ReplaceKeepsLeaf(e, x, r, inKeys);
      LeafIsCall(Replace(e, x, r, inKeys));
    }
  }

  lemma LeafIsCall(e: Exp)
    ensures Leaf(e) ==> e.Call?
  {
  }

  lemma PlainIsCallFree(e: Exp)
    requires Plain(e)
    ensures CallFree(e)
  {
  }

  ghost predicate LeafInvs(invs: map<string, Exp>) { forall k | k in invs :: Leaf(invs[k]) }

  /** Every formula the generator emits has one of the shapes `H -> C`, `H -> (true -> C)` and,
      for the returned formula, `C` or `true -> C`; the latter exactly when there is a loop. */
  lemma {:induction false} WpShapes(c: Stmt, q: Exp, invs: map<string, Exp>, inKeys: bool)
    requires PlainStmt(c) && Consequent(q) && LeafInvs(invs) && LoopKeys(c) <= invs.Keys
    ensures Wp(c, q, invs, inKeys).Some?
    ensures Consequent(Wp(c, q, invs, inKeys).value.pre)
    ensures Wp(c, q, invs, inKeys).value.pre.Implies? <==> q.Implies? || LoopKeys(c) != {}
    ensures forall i | 0 <= i < |Wp(c, q, invs, inKeys).value.conds| :: CondShape(Wp(c, q, invs, inKeys).value.conds[i])
    decreases c, 1
  {
    hide LoopKey, Replace, CallFree, Plain, Consequent, Leaf, CondShape;
    match c
    case Just(_) =>
    case AssignVar(x, e) =>
      PlainIsCallFree(e);
      ReplaceKeepsConsequent(q, x, e, inKeys);
    case AssignArr(a, loc, e) =>
      AugIsCallFree(a, loc, e);
      ReplaceKeepsConsequent(q, a, Aug(Var(a), loc, e), inKeys);
    case Seq(c1, c2) =>
      WpSeq(c, q, invs, inKeys);
      WpDefined(c, q, invs, inKeys);
      WpShapes(c2, q, invs, inKeys);
      WpShapes(c1, Wp(c2, q, invs, inKeys).value.pre, invs, inKeys);
    case While(_, test, body) =>
      WpWhile(c, q, invs, inKeys);
      LoopShapes(c, q, invs, inKeys);
  }

  lemma AugIsCallFree(a: string, loc: Exp, e: Exp)
    requires Plain(loc) && Plain(e)
    ensures CallFree(Aug(Var(a), loc, e))
  {
    PlainIsCallFree(loc);
    PlainIsCallFree(e);
  }

  lemma {:induction false} LoopShapes(c: Stmt, q: Exp, invs: map<string, Exp>, inKeys: bool)
    requires c.While? && PlainStmt(c) && Consequent(q) && LeafInvs(invs) && LoopKeys(c) <= invs.Keys
    ensures Wp(c, q, invs, inKeys).Some? && Wp(c, q, invs, inKeys).value.pre == Implies(True, invs[LoopKey(c)])
    ensures Consequent(Wp(c, q, invs, inKeys).value.pre) && LoopKeys(c) != {}
    ensures forall i | 0 <= i < |Wp(c, q, invs, inKeys).value.conds| :: CondShape(Wp(c, q, invs, inKeys).value.conds[i])
    decreases c, 0
  {
    hide LoopKey, Replace, Plain, Wp;
    var inv := invs[LoopKey(c)];
    WpWhile(c, q, invs, inKeys);
    assert Leaf(inv) && Consequent(inv);
    WpShapes(c.body, inv, invs, inKeys);
    PlainIsCallFree(c.test);
    var v := Wp(c.body, inv, invs, inKeys).value;
    assert CondShape(ExitCond(inv, c.test, q)) && CondShape(StepCond(inv, c.test, v.pre));
  }

  // ----- the replacer -----

  function PVar(x: string): string { x + "_p" }

  function PVars(loopvars: seq<string>): seq<string> {
    seq(|loopvars|, i requires 0 <= i < |loopvars| => PVar(loopvars[i]))
  }

  function AsVars(xs: seq<string>): seq<Exp> {
    seq(|xs|, i requires 0 <= i < |xs| => Var(xs[i]))
  }

  /** A call of an invariant becomes a call of its pointwise version; the postcondition stays. */
  function PointwiseCall(f: string, params: seq<Exp>, loopvars: seq<string>): Exp {
    if f == "postcondition" then Call(f, params) else Call(f + "__2", params + AsVars(PVars(loopvars)))
  }

  /** The visitor as a function of its flag: the new node and the flag afterwards. */
  function Rewrite(e: Exp, inThen: bool, loopvars: seq<string>): (Exp, bool) {
    match e
    case Implies(a, c) => (Implies(Rewrite(a, inThen, loopvars).0, Rewrite(c, true, loopvars).0), false)
    case Call(f, ps) => (if inThen then PointwiseCall(f, ps, loopvars) else e, inThen)
    case Bin(l, op, r) =>
      var (l', b) := Rewrite(l, inThen, loopvars);
      var (r', b') := Rewrite(r, b, loopvars);
      (Bin(l', op, r'), b')
    case Not(x) => (Not(Rewrite(x, inThen, loopvars).0), Rewrite(x, inThen, loopvars).1)
    case Arr(a, loc) =>
      var (a', b) := Rewrite(a, inThen, loopvars);
      var (loc', b') := Rewrite(loc, b, loopvars);
      (Arr(a', loc'), b')
    case Aug(a, k, v) => (Aug(Rewrite(a, inThen, loopvars).0, k, v), Rewrite(a, inThen, loopvars).1)
    case _ => (e, inThen)
  }

  class RHSInvariantReplacer {
    var inThen: bool
    const loopvars: seq<string>

    constructor (loopvars: seq<string>)
      ensures !inThen && this.loopvars == loopvars
    {
      inThen := false;
      this.loopvars := loopvars;
    }

    method Visit(e: Exp) returns (r: Exp)
      modifies this
      ensures (r, inThen) == Rewrite(e, old(inThen), loopvars)
      ensures e.Call? ==> if old(inThen) then PointsAppended(e, r, loopvars) else r == e
      decreases e
    {
      r := e;
      match e
      case Implies(a, c) =>
        var ifx := Visit(a);
        inThen := true;
        var cons := Visit(c);
        inThen := false;
        r := Implies(ifx, cons);
      case Call(f, ps) =>
        PointwiseCallIs(e, loopvars);
        if inThen { r := PointwiseCall(f, ps, loopvars); }
      case Bin(l, op, b) =>
        var left := Visit(l);
        var right := Visit(b);
        r := Bin(left, op, right);
      case Not(b) =>
        var x := Visit(b);
        r := Not(x);
      case Arr(a, loc) =>
        var name := Visit(a);
        var l := Visit(loc);
        r := Arr(name, l);
      case Aug(a, k, v) =>
        var name := Visit(a);
        r := Aug(name, k, v);
      case _ =>
    }
  }

  lemma {:induction false} CallFreeIsKept(e: Exp, inThen: bool, loopvars: seq<string>)
    requires CallFree(e)
    ensures Rewrite(e, inThen, loopvars) == (e, inThen)
  {
    match e
    case Bin(l, _, r) => CallFreeIsKept(l, inThen, loopvars); CallFreeIsKept(r, inThen, loopvars);
    case Not(b) => CallFreeIsKept(b, inThen, loopvars);
    case Arr(a, loc) => CallFreeIsKept(a, inThen, loopvars); CallFreeIsKept(loc, inThen, loopvars);
    case Aug(a, _, _) => CallFreeIsKept(a, inThen, loopvars);
    case _ =>
  }

  function PointwiseConsequent(e: Exp, loopvars: seq<string>): Exp
    requires Consequent(e)
  {
    if e.Call? then PointwiseCall(e.fname, e.params, loopvars)
    else Implies(True, PointwiseCall(e.cons.fname, e.cons.params, loopvars))
  }

  /** On the generated shapes exactly the final consequent is rewritten. */
  lemma RewriteCond(e: Exp, loopvars: seq<string>)
    requires CondShape(e)
    ensures Rewrite(e, false, loopvars) == (Implies(e.ifx, PointwiseConsequent(e.cons, loopvars)), false)
  {
    hide CallFree, PointwiseCall;
    CallFreeIsKept(e.ifx.right, false, loopvars);
    assert Rewrite(e.ifx.left, false, loopvars) == (e.ifx.left, false);
    assert Rewrite(e.ifx, false, loopvars) == (e.ifx, false);
    if e.cons.Implies? {
      assert Rewrite(True, true, loopvars) == (True, true);
      assert Rewrite(e.cons.cons, true, loopvars).0 == PointwiseCall(e.cons.cons.fname, e.cons.cons.params, loopvars);
    }
    assert Rewrite(e.cons, true, loopvars).0 == PointwiseConsequent(e.cons, loopvars);
  }

  /** The call made of `call`: the postcondition itself, and for an invariant the pointwise version
      with the old arguments, followed by the point variables in the order of the loop variables. */
  ghost predicate PointsAppended(call: Exp, call': Exp, loopvars: seq<string>)
    requires call.Call?
  {
    if call.fname == "postcondition" then call' == call
    else
      && call'.Call? && call'.fname == call.fname + "__2" && |call'.params| == |call.params| + |loopvars|
      && (forall i | 0 <= i < |call.params| :: call'.params[i] == call.params[i])
      && (forall i | 0 <= i < |loopvars| :: call'.params[|call.params| + i] == Var(loopvars[i] + "_p"))
  }

  lemma PointwiseCallIs(call: Exp, loopvars: seq<string>)
    requires call.Call?
    ensures PointsAppended(call, PointwiseCall(call.fname, call.params, loopvars), loopvars)
  {
  }

  /** In a generated condition the arguments of the final call become these, and nothing else
      changes. */
  lemma FinalCallGetsPoints(e: Exp, loopvars: seq<string>)
    requires CondShape(e)
    ensures var r := Rewrite(e, false, loopvars).0;
      && r.Implies? && r.ifx == e.ifx
      && (if e.cons.Call? then PointsAppended(e.cons, r.cons, loopvars)
          else && r.cons.Implies? && r.cons.ifx == e.cons.ifx
               && PointsAppended(e.cons.cons, r.cons.cons, loopvars))
  {
    hide CallFree, PointwiseCall, PointsAppended, Rewrite;
    RewriteCond(e, loopvars);
    PointwiseCallIs(Final(e.cons), loopvars);
  }

  // ----- pointwise replacement preserves validity -----

  /** Every invariant says "for all points, its pointwise version holds there". */
  ghost predicate PointwiseModel(m: Model, names: set<string>, n: nat) {
    forall f, vs | f in names :: m.calls(f, vs) == AtAllPoints(m, f, vs, n)
  }

  ghost predicate AtAllPoints(m: Model, f: string, vs: seq<Value>, n: nat) {
    forall ps: seq<Value> | |ps| == n :: m.calls(f + "__2", vs + ps)
  }

  predicate NoDuplicates(xs: seq<string>) { forall i, j | 0 <= i < j < |xs| :: xs[i] != xs[j] }

  function SetAll(s: State, xs: seq<string>, vs: seq<Value>): State
    requires |xs| == |vs|
    decreases |xs|
  {
    if xs == [] then s else SetAll(s[xs[0] := vs[0]], xs[1..], vs[1..])
  }

  lemma {:induction false} SetAllLookup(s: State, xs: seq<string>, vs: seq<Value>, x: string)
    requires |xs| == |vs| && NoDuplicates(xs)
    ensures x !in xs ==> Lookup(SetAll(s, xs, vs), x) == Lookup(s, x)
    ensures forall i | 0 <= i < |xs| && xs[i] == x :: Lookup(SetAll(s, xs, vs), x) == vs[i]
    decreases |xs|
  {
    if xs != [] {
      SetAllLookup(s[xs[0] := vs[0]], xs[1..], vs[1..], x);
      assert xs == [xs[0]] + xs[1..];
      forall i | 0 <= i < |xs| && xs[i] == x ensures Lookup(SetAll(s, xs, vs), x) == vs[i] {
        if i > 0 { assert xs[1..][i - 1] == x && vs[1..][i - 1] == vs[i]; }
        else { assert x !in xs[1..]; }
      }
    }
  }

  lemma {:induction false} SetAllAdmissible(s: State, xs: seq<string>, vs: seq<Value>, admissible: State -> bool,
                                            names: set<string>)
    requires |xs| == |vs| && Closed(admissible, names) && admissible(s) && forall i | 0 <= i < |xs| :: xs[i] in names
    ensures admissible(SetAll(s, xs, vs))
    decreases |xs|
  {
    if xs != [] {
      assert admissible(s[xs[0] := vs[0]]);
      SetAllAdmissible(s[xs[0] := vs[0]], xs[1..], vs[1..], admissible, names);
    }
  }

  /** The values of the `_p` variables. */
  function PValues(s: State, xs: seq<string>): seq<Value> {
    seq(|xs|, i requires 0 <= i < |xs| => Lookup(s, xs[i]))
  }

  lemma PointwiseCallHolds(e: Exp, loopvars: seq<string>, s: State, m: Model)
    requires e.Call? && e.fname != "postcondition"
    ensures Holds(PointwiseCall(e.fname, e.params, loopvars), s, m)
      == m.calls(e.fname + "__2", EvalAll(e.params, s, m) + PValues(s, PVars(loopvars)))
  {
    hide PVars;
    var xs := PVars(loopvars);
    assert EvalAll(e.params + AsVars(xs), s, m) == EvalAll(e.params, s, m) + PValues(s, xs);
  }

  lemma PVarsAreDistinct(loopvars: seq<string>)
    requires NoDuplicates(loopvars)
    ensures NoDuplicates(PVars(loopvars)) && |PVars(loopvars)| == |loopvars|
  {
    forall i, j | 0 <= i < j < |loopvars| ensures PVar(loopvars[i]) != PVar(loopvars[j]) {
      assert PVar(loopvars[i])[..|PVar(loopvars[i])| - 2] == loopvars[i];
      assert PVar(loopvars[j])[..|PVar(loopvars[j])| - 2] == loopvars[j];
    }
  }

  /** `H -> I(args)` is valid exactly when `H -> I__2(args, ps)` is, for `_p` variables that
      occur nowhere in it. */
  lemma PointwiseImplication(h: Exp, call: Exp, loopvars: seq<string>, names: set<string>, admissible: State -> bool,
                             m: Model)
    requires call.Call? && call.fname in names && call.fname != "postcondition" && NoDuplicates(loopvars)
    requires (Vars(h) + Vars(call)) !! (set x | x in PVars(loopvars))
    requires PointwiseModel(m, names, |loopvars|) && Closed(admissible, set x | x in PVars(loopvars))
    ensures (forall s | admissible(s) && Holds(h, s, m) :: Holds(call, s, m))
       <==> (forall s | admissible(s) && Holds(h, s, m) ::
         Holds(PointwiseCall(call.fname, call.params, loopvars), s, m))
  {
    hide Eval, Vars, PVars, PointwiseCall, NoDuplicates;
    var xs := PVars(loopvars);
    PVarsAreDistinct(loopvars);
    forall s ensures Holds(call, s, m) == m.calls(call.fname, EvalAll(call.params, s, m)) { CallHolds(call, s, m); }
    forall s
      ensures Holds(PointwiseCall(call.fname, call.params, loopvars), s, m)
        == m.calls(call.fname + "__2", EvalAll(call.params, s, m) + PValues(s, xs))
    {
      PointwiseCallHolds(call, loopvars, s, m);
    }
    forall s | Holds(call, s, m) ensures Holds(PointwiseCall(call.fname, call.params, loopvars), s, m) {
      assert AtAllPoints(m, call.fname, EvalAll(call.params, s, m), |loopvars|);
    }
    if forall s | admissible(s) && Holds(h, s, m) :: Holds(PointwiseCall(call.fname, call.params, loopvars), s, m) {
      forall s | admissible(s) && Holds(h, s, m) ensures Holds(call, s, m) {
        forall ps: seq<Value> | |ps| == |loopvars|
          ensures m.calls(call.fname + "__2", EvalAll(call.params, s, m) + ps)
        {
          AtOtherPoint(h, call, xs, s, ps, admissible, m);
        }
        assert AtAllPoints(m, call.fname, EvalAll(call.params, s, m), |loopvars|);
      }
    }
  }

  lemma CallHolds(call: Exp, s: State, m: Model)
    requires call.Call?
    ensures Holds(call, s, m) == m.calls(call.fname, EvalAll(call.params, s, m))
  {
  }

  /** Moving the `_p` variables to any other point changes neither side of an implication. */
  lemma AtOtherPoint(h: Exp, call: Exp, xs: seq<string>, s: State, ps: seq<Value>, admissible: State -> bool, m: Model)
    requires call.Call? && |ps| == |xs| && NoDuplicates(xs) && (Vars(h) + Vars(call)) !! (set x | x in xs)
    requires Closed(admissible, set x | x in xs) && admissible(s)
    ensures var t := SetAll(s, xs, ps);
      && admissible(t) && Holds(h, t, m) == Holds(h, s, m)
      && EvalAll(call.params, t, m) == EvalAll(call.params, s, m) && PValues(t, xs) == ps
  {
    hide Eval, Vars, VarsOf, SetAll, NoDuplicates;
    var t := SetAll(s, xs, ps);
    SetAllAdmissible(s, xs, ps, admissible, set x | x in xs);
    forall x ensures x !in xs ==> Lookup(t, x) == Lookup(s, x) { SetAllLookup(s, xs, ps, x); }
    Coincidence(h, t, s, m);
    forall i | 0 <= i < |call.params| ensures Eval(call.params[i], t, m) == Eval(call.params[i], s, m) {
      ParamVars(call, i);
      Coincidence(call.params[i], t, s, m);
    }
    forall i | 0 <= i < |xs| ensures PValues(t, xs)[i] == ps[i] { SetAllLookup(s, xs, ps, xs[i]); }
  }

  lemma ParamVars(call: Exp, i: nat)
    requires call.Call? && i < |call.params|
    ensures Vars(call.params[i]) <= Vars(call)
  {
  }

  /** A generated condition is valid exactly when its rewritten form is. */
  lemma RewriteKeepsValidity(e: Exp, loopvars: seq<string>, names: set<string>, admissible: State -> bool, m: Model)
    requires CondShape(e) && (Final(e.cons).fname == "postcondition" || Final(e.cons).fname in names)
    requires NoDuplicates(loopvars)
    requires Vars(e) !! (set x | x in PVars(loopvars)) || Final(e.cons).fname == "postcondition"
    requires PointwiseModel(m, names, |loopvars|) && Closed(admissible, set x | x in PVars(loopvars))
    ensures Valid(e, admissible, m) <==> Valid(Rewrite(e, false, loopvars).0, admissible, m)
  {
    hide CallFree, Eval, PVars, NoDuplicates, PointwiseModel, Rewrite;
    RewriteCond(e, loopvars);
    var call := Final(e.cons);
    var e' := Rewrite(e, false, loopvars).0;
    var call' := PointwiseCall(call.fname, call.params, loopvars);
    forall s ensures Holds(e, s, m) <==> (Holds(e.ifx, s, m) ==> Holds(call, s, m)) { ConsequentHolds(e, s, m); }
    forall s ensures Holds(e', s, m) <==> (Holds(e.ifx, s, m) ==> Holds(call', s, m)) {
      EvalImplies(e.ifx, e'.cons, s, m);
      EvalImplies(True, call', s, m);
    }
    if call.fname != "postcondition" {
      FinalVars(e);
      PointwiseImplication(e.ifx, call, loopvars, names, admissible, m);
    }
  }

  lemma FinalVars(e: Exp)
    requires CondShape(e)
    ensures Vars(e.ifx) + Vars(Final(e.cons)) <= Vars(e)
  {
    hide CallFree;
  }

  lemma ConsequentHolds(e: Exp, s: State, m: Model)
    requires CondShape(e)
    ensures Holds(e, s, m) <==> (Holds(e.ifx, s, m) ==> Holds(Final(e.cons), s, m))
  {
    hide CallFree, Eval;
    EvalImplies(e.ifx, e.cons, s, m);
    if e.cons.Implies? { EvalImplies(True, e.cons.cons, s, m); }
  }

  // ----- the whole set of conditions -----

  function StmtVars(c: Stmt): set<string> {
    match c
    case Just(e) => Vars(e)
    case AssignVar(x, e) => {x} + Vars(e)
    case AssignArr(a, loc, e) => {a} + Vars(loc) + Vars(e)
    case Seq(c1, c2) => StmtVars(c1) + StmtVars(c2)
    case While(_, test, body) => Vars(test) + StmtVars(body)
  }

  lemma {:induction false} ReplaceVars(q: Exp, x: string, r: Exp, inKeys: bool)
    ensures Vars(Replace(q, x, r, inKeys)) <= Vars(q) + Vars(r)
  {
    match q
    case Bin(a, _, b) => ReplaceVars(a, x, r, inKeys); ReplaceVars(b, x, r, inKeys);
    case Not(b) => ReplaceVars(b, x, r, inKeys);
    case Arr(a, loc) => ReplaceVars(a, x, r, inKeys); ReplaceVars(loc, x, r, inKeys);
    case Aug(a, k, v) => ReplaceVars(a, x, r, inKeys); ReplaceVars(k, x, r, inKeys); ReplaceVars(v, x, r, inKeys);
    case Implies(a, c) => ReplaceVars(a, x, r, inKeys); ReplaceVars(c, x, r, inKeys);
    case Call(_, ps) =>
      forall i | 0 <= i < |ps| ensures Vars(Replace(ps[i], x, r, inKeys)) <= Vars(q) + Vars(r) {
        ReplaceVars(ps[i], x, r, inKeys);
        ParamVars(q, i);
      }
    case _ =>
  }

  /** Its call is the postcondition, or an invariant whose arguments mention no `_p` variable. */
  predicate Rewritable(e: Exp, names: set<string>, xs: set<string>) {
    Consequent(e) && (Final(e).fname == "postcondition" || (Final(e).fname in names && Vars(e) !! xs))
  }

  predicate RewritableCond(e: Exp, names: set<string>, xs: set<string>) {
    CondShape(e) && Rewritable(e.cons, names, xs) && Vars(e.ifx) !! xs
  }

  ghost predicate InvariantCalls(invs: map<string, Exp>, names: set<string>, xs: set<string>) {
    forall k | k in invs :: Leaf(invs[k]) && invs[k].fname in names && Vars(invs[k]) !! xs
  }

  lemma ReplaceKeepsRewritable(e: Exp, x: string, r: Exp, inKeys: bool, names: set<string>, xs: set<string>)
    requires Rewritable(e, names, xs) && CallFree(r) && Vars(r) !! xs
    ensures Rewritable(Replace(e, x, r, inKeys), names, xs)
    ensures Replace(e, x, r, inKeys).Implies? == e.Implies?
  {
    hide CallFree, Vars, Leaf, ReplaceAll;
    LeafIsCall(e);
    ReplaceKeepsConsequent(e, x, r, inKeys);
    ReplaceVars(e, x, r, inKeys);
    if e.Implies? { LeafIsCall(e.cons); }
    assert Final(Replace(e, x, r, inKeys)).fname == Final(e).fname;
  }

  lemma {:induction false} WpRewritable(c: Stmt, q: Exp, invs: map<string, Exp>, inKeys: bool, names: set<string>,
                                        xs: set<string>)
    requires PlainStmt(c) && StmtVars(c) !! xs && LoopKeys(c) <= invs.Keys
    requires Rewritable(q, names, xs) && InvariantCalls(invs, names, xs)
    ensures Wp(c, q, invs, inKeys).Some? && Rewritable(Wp(c, q, invs, inKeys).value.pre, names, xs)
    ensures forall i | 0 <= i < |Wp(c, q, invs, inKeys).value.conds| ::
      RewritableCond(Wp(c, q, invs, inKeys).value.conds[i], names, xs)
    decreases c, 1
  {
    hide LoopKey, Replace, CallFree, Plain, Rewritable, RewritableCond, InvariantCalls;
    match c
    case Just(_) =>
    case AssignVar(x, e) =>
      PlainIsCallFree(e);
      ReplaceKeepsRewritable(q, x, e, inKeys, names, xs);
    case AssignArr(a, loc, e) =>
      AugIsCallFree(a, loc, e);
      ReplaceKeepsRewritable(q, a, Aug(Var(a), loc, e), inKeys, names, xs);
    case Seq(c1, c2) =>
      WpSeq(c, q, invs, inKeys);
      WpDefined(c, q, invs, inKeys);
      WpRewritable(c2, q, invs, inKeys, names, xs);
      WpRewritable(c1, Wp(c2, q, invs, inKeys).value.pre, invs, inKeys, names, xs);
    case While(_, test, body) => LoopRewritable(c, q, invs, inKeys, names, xs);
  }

  lemma {:induction false} LoopRewritable(c: Stmt, q: Exp, invs: map<string, Exp>, inKeys: bool, names: set<string>,
                                          xs: set<string>)
    requires c.While? && PlainStmt(c) && StmtVars(c) !! xs && LoopKeys(c) <= invs.Keys
    requires Rewritable(q, names, xs) && InvariantCalls(invs, names, xs)
    ensures Wp(c, q, invs, inKeys).Some? && Rewritable(Wp(c, q, invs, inKeys).value.pre, names, xs)
    ensures forall i | 0 <= i < |Wp(c, q, invs, inKeys).value.conds| ::
      RewritableCond(Wp(c, q, invs, inKeys).value.conds[i], names, xs)
    decreases c, 0
  {
    hide LoopKey, Replace, Plain, Wp, CallFree;
    var inv := invs[LoopKey(c)];
    WpWhile(c, q, invs, inKeys);
    assert Vars(Implies(True, inv)) == Vars(inv);
    assert Rewritable(inv, names, xs) && Rewritable(Implies(True, inv), names, xs);
    WpRewritable(c.body, inv, invs, inKeys, names, xs);
    PlainIsCallFree(c.test);
    var v := Wp(c.body, inv, invs, inKeys).value;
    assert CallFree(Not(c.test)) by { NotIsCallFree(c.test); }
    assert Vars(Not(c.test)) == Vars(c.test);
    CondIsRewritable(inv, Not(c.test), q, names, xs);
    CondIsRewritable(inv, c.test, v.pre, names, xs);
  }

  lemma NotIsCallFree(e: Exp)
    requires CallFree(e)
    ensures CallFree(Not(e))
  {
  }

  lemma CondIsRewritable(inv: Exp, test: Exp, q: Exp, names: set<string>, xs: set<string>)
    requires Leaf(inv) && Vars(inv) !! xs && CallFree(test) && Vars(test) !! xs && Rewritable(q, names, xs)
    ensures RewritableCond(Implies(Bin(inv, And, test), q), names, xs)
  {
    hide CallFree, Leaf, Rewritable;
    assert Vars(Bin(inv, And, test)) == Vars(inv) + Vars(test);
    assert Consequent(q) by { RewritableIsConsequent(q, names, xs); }
  }

  lemma RewritableIsConsequent(q: Exp, names: set<string>, xs: set<string>)
    requires Rewritable(q, names, xs)
    ensures Consequent(q)
  {
  }

  /** The returned formula of a program with a loop, `true -> C`, under the replacer. */
  lemma RewritePreKeepsValidity(e: Exp, loopvars: seq<string>, names: set<string>, admissible: State -> bool, m: Model)
    requires Rewritable(e, names, set x | x in PVars(loopvars)) && NoDuplicates(loopvars)
    requires PointwiseModel(m, names, |loopvars|) && Closed(admissible, set x | x in PVars(loopvars))
    ensures Valid(e, admissible, m) <==> Valid(Rewrite(e, false, loopvars).0, admissible, m)
  {
    hide CallFree, Eval, PVars, NoDuplicates, PointwiseModel, Leaf;
    LeafIsCall(e);
    if e.Implies? {
      LeafIsCall(e.cons);
      var call := e.cons;
      var call' := PointwiseCall(call.fname, call.params, loopvars);
      assert Rewrite(e, false, loopvars).0 == Implies(True, call');
      forall s
        ensures Holds(e, s, m) == Holds(call, s, m) && Holds(Implies(True, call'), s, m) == Holds(call', s, m)
        ensures Holds(True, s, m)
      {
        EvalImplies(True, call, s, m);
        EvalImplies(True, call', s, m);
      }
      if call.fname != "postcondition" { PointwiseImplication(True, call, loopvars, names, admissible, m); }
    }
  }

  ghost predicate ValidSet(v: Vcs, admissible: State -> bool, m: Model) {
    Valid(v.pre, admissible, m) && AllValid(v.conds, admissible, m)
  }

  function RewriteAll(v: Vcs, loopvars: seq<string>): Vcs {
    Vcs(Rewrite(v.pre, false, loopvars).0,
        seq(|v.conds|, i requires 0 <= i < |v.conds| => Rewrite(v.conds[i], false, loopvars).0))
  }

  /** For every program: the generated set of conditions is valid exactly when the set that
      checks consequent invariants at one arbitrary point is. */
  lemma PointwiseReplacementIsEquivalent(c: Stmt, q: Exp, invs: map<string, Exp>, inKeys: bool, loopvars: seq<string>,
                                         names: set<string>, admissible: State -> bool, m: Model)
    requires PlainStmt(c) && StmtVars(c) !! (set x | x in PVars(loopvars)) && LoopKeys(c) <= invs.Keys
    requires NoDuplicates(loopvars)
    requires Rewritable(q, names, set x | x in PVars(loopvars))
    requires InvariantCalls(invs, names, set x | x in PVars(loopvars))
    requires PointwiseModel(m, names, |loopvars|) && Closed(admissible, set x | x in PVars(loopvars))
    ensures Wp(c, q, invs, inKeys).Some?
    ensures ValidSet(Wp(c, q, invs, inKeys).value, admissible, m)
      <==> ValidSet(RewriteAll(Wp(c, q, invs, inKeys).value, loopvars), admissible, m)
  {
    hide PlainStmt, StmtVars, LoopKeys, Wp, Rewritable, RewritableCond, InvariantCalls, PointwiseModel, Valid, Rewrite,
      PVars, Closed, NoDuplicates;
    var xs := set x | x in PVars(loopvars);
    WpRewritable(c, q, invs, inKeys, names, xs);
    var v := Wp(c, q, invs, inKeys).value;
    RewritePreKeepsValidity(v.pre, loopvars, names, admissible, m);
    forall i | 0 <= i < |v.conds|
      ensures Valid(v.conds[i], admissible, m) <==> Valid(Rewrite(v.conds[i], false, loopvars).0, admissible, m)
    {
      RewritableCondParts(v.conds[i], names, xs);
      RewriteKeepsValidity(v.conds[i], loopvars, names, admissible, m);
    }
    var w := RewriteAll(v, loopvars);
    assert forall i | 0 <= i < |v.conds| :: Valid(v.conds[i], admissible, m) <==> Valid(w.conds[i], admissible, m);
  }

  lemma RewritableCondParts(e: Exp, names: set<string>, xs: set<string>)
    requires RewritableCond(e, names, xs)
    ensures CondShape(e) && Consequent(e.cons)
    ensures Final(e.cons).fname == "postcondition" || (Final(e.cons).fname in names && Vars(e) !! xs)
  {
    hide CallFree, Leaf;
    assert Vars(e) == Vars(e.ifx) + Vars(e.cons);
  }
}
