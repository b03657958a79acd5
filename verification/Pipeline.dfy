/** The whole way from a program to an assert program: `SketchGenerator.generate`
    (backend/generate_sketch.py:192-214). */
module Pipeline {
  import opened StencilIr
  import opened Interpret
  import opened Verify
  import opened VerifyTheorems
  import opened GenerateSketch
  import opened AssertionToSketch
  import H = HoistedArrays
  import P = Parser
  import T = Texts

  // ----- names that are identifiers, arrays that are used as arrays -----

  predicate StmtIn(c: Stmt, arrays: set<string>) {
    match c
    case Just(_) => true
    case AssignVar(x, e) => x !in arrays && T.Spelled(e, arrays)
    case AssignArr(a, loc, e) => a in arrays && P.Identifier(a) && T.Spelled(loc, arrays) && T.Spelled(e, arrays)
    case Seq(c1, c2) => StmtIn(c1, arrays) && StmtIn(c2, arrays)
    case While(_, test, body) => T.Spelled(test, arrays) && StmtIn(body, arrays)
  }

  /** Formulas over such expressions. */
  predicate FormulaIn(e: Exp, arrays: set<string>) {
    match e
    case True => true
    case Var(x) => P.Identifier(x)
    case Num(_) => true
    case Bin(l, _, r) => FormulaIn(l, arrays) && FormulaIn(r, arrays)
    case Not(b) => FormulaIn(b, arrays)
    case Implies(a, c) => FormulaIn(a, arrays) && FormulaIn(c, arrays)
    case Call(_, ps) => forall i | 0 <= i < |ps| :: FormulaIn(ps[i], arrays)
    case _ => T.Spelled(e, arrays)
  }

  lemma {:induction false} SpelledIsFormula(e: Exp, arrays: set<string>)
    requires T.Spelled(e, arrays)
    ensures FormulaIn(e, arrays) && forall a | a in H.Augs(e) :: T.Spelled(a, arrays)
  {
    match e
    case Bin(l, _, r) => SpelledIsFormula(l, arrays); SpelledIsFormula(r, arrays);
    case Arr(a, loc) => SpelledIsFormula(a, arrays); SpelledIsFormula(loc, arrays);
    case Aug(a, k, v) => SpelledIsFormula(a, arrays); SpelledIsFormula(k, arrays); SpelledIsFormula(v, arrays);
    case _ =>
  }

  /** Every augmented array inside such a formula is determined by its text. */
  lemma {:induction false} AugsAreSpelled(e: Exp, arrays: set<string>)
    requires FormulaIn(e, arrays)
    ensures forall a | a in H.Augs(e) :: T.Spelled(a, arrays)
  {
    match e
    case Bin(l, _, r) => AugsAreSpelled(l, arrays); AugsAreSpelled(r, arrays);
    case Not(b) => AugsAreSpelled(b, arrays);
    case Implies(a, c) => AugsAreSpelled(a, arrays); AugsAreSpelled(c, arrays);
    case Call(_, ps) =>
      forall i | 0 <= i < |ps|
        ensures forall a | a in H.Augs(ps[i]) :: T.Spelled(a, arrays)
      {
        AugsAreSpelled(ps[i], arrays);
      }
    case Arr(_, _) => SpelledIsFormula(e, arrays);
    case Aug(_, _, _) => SpelledIsFormula(e, arrays);
    case _ =>
  }

  lemma {:induction false} ReplaceSpelled(q: Exp, x: string, r: Exp, inKeys: bool, arrays: set<string>)
    requires T.Spelled(q, arrays) && T.Spelled(r, arrays) && (x in arrays ==> r.Aug?)
    ensures T.Spelled(Replace(q, x, r, inKeys), arrays)
    ensures T.IsArray(q, arrays) ==> T.IsArray(Replace(q, x, r, inKeys), arrays)
  {
    match q
    case Bin(a, _, b) => ReplaceSpelled(a, x, r, inKeys, arrays); ReplaceSpelled(b, x, r, inKeys, arrays);
    case Arr(a, loc) => ReplaceSpelled(a, x, r, inKeys, arrays); ReplaceSpelled(loc, x, r, inKeys, arrays);
    case Aug(a, k, v) =>
      ReplaceSpelled(a, x, r, inKeys, arrays);
      ReplaceSpelled(k, x, r, inKeys, arrays);
      ReplaceSpelled(v, x, r, inKeys, arrays);
    case _ =>
  }

  lemma {:induction false} ReplaceFormula(q: Exp, x: string, r: Exp, inKeys: bool, arrays: set<string>)
    requires FormulaIn(q, arrays) && T.Spelled(r, arrays) && (x in arrays ==> r.Aug?)
    ensures FormulaIn(Replace(q, x, r, inKeys), arrays)
  {
    match q
    case Bin(a, _, b) => ReplaceFormula(a, x, r, inKeys, arrays); ReplaceFormula(b, x, r, inKeys, arrays);
    case Not(b) => ReplaceFormula(b, x, r, inKeys, arrays);
    case Implies(a, c) => ReplaceFormula(a, x, r, inKeys, arrays); ReplaceFormula(c, x, r, inKeys, arrays);
    case Call(_, ps) =>
      forall i | 0 <= i < |ps|
        ensures FormulaIn(Replace(ps[i], x, r, inKeys), arrays)
      {
        ReplaceFormula(ps[i], x, r, inKeys, arrays);
      }
    case Var(y) => if y == x { SpelledIsFormula(r, arrays); }
    case Arr(_, _) => ReplaceSpelled(q, x, r, inKeys, arrays);
    case Aug(_, _, _) => ReplaceSpelled(q, x, r, inKeys, arrays);
    case _ =>
  }

  // ----- what the generator keeps -----

  /** A formula over the given variables, well named. */
  ghost predicate Clean(e: Exp, arrays: set<string>, vocabulary: set<string>) {
    FormulaIn(e, arrays) && Vars(e) <= vocabulary
  }

  ghost predicate CleanAll(es: seq<Exp>, arrays: set<string>, vocabulary: set<string>) {
    forall i | 0 <= i < |es| :: Clean(es[i], arrays, vocabulary)
  }

  lemma CleanParts(e: Exp, arrays: set<string>, vocabulary: set<string>)
    ensures Clean(True, arrays, vocabulary)
    ensures e.Implies?
      ==> (Clean(e, arrays, vocabulary) <==> Clean(e.ifx, arrays, vocabulary) && Clean(e.cons, arrays, vocabulary))
    ensures e.Bin?
      ==> (Clean(e, arrays, vocabulary) <==> Clean(e.left, arrays, vocabulary) && Clean(e.right, arrays, vocabulary))
    ensures e.Not? ==> (Clean(e, arrays, vocabulary) <==> Clean(e.ex, arrays, vocabulary))
  {
    hide T.Spelled;
  }

  lemma ReplaceClean(q: Exp, x: string, r: Exp, inKeys: bool, arrays: set<string>, vocabulary: set<string>)
    requires Clean(q, arrays, vocabulary) && T.Spelled(r, arrays) && (x in arrays ==> r.Aug?) && Vars(r) <= vocabulary
    ensures Clean(Replace(q, x, r, inKeys), arrays, vocabulary)
  {
    hide Replace, Vars, FormulaIn, T.Spelled;
    ReplaceFormula(q, x, r, inKeys, arrays);
    ReplaceVars(q, x, r, inKeys);
  }

  lemma {:induction false} WpClean(c: Stmt, q: Exp, invs: map<string, Exp>, inKeys: bool, arrays: set<string>,
                                   vocabulary: set<string>)
    requires StmtIn(c, arrays) && StmtVars(c) <= vocabulary && Clean(q, arrays, vocabulary)
    requires (forall k | k in invs :: Clean(invs[k], arrays, vocabulary)) && LoopKeys(c) <= invs.Keys
    ensures Wp(c, q, invs, inKeys).Some?
    ensures Clean(Wp(c, q, invs, inKeys).value.pre, arrays, vocabulary)
    ensures CleanAll(Wp(c, q, invs, inKeys).value.conds, arrays, vocabulary)
    decreases c, 1
  {
    hide LoopKey, Replace, Clean, T.Spelled;
    match c
    case Just(_) =>
    case AssignVar(x, e) => ReplaceClean(q, x, e, inKeys, arrays, vocabulary);
    case AssignArr(a, loc, e) =>
      AugIsSpelled(a, loc, e, arrays);
      ReplaceClean(q, a, Aug(Var(a), loc, e), inKeys, arrays, vocabulary);
    case Seq(c1, c2) =>
      WpSeq(c, q, invs, inKeys);
      WpClean(c2, q, invs, inKeys, arrays, vocabulary);
      WpClean(c1, Wp(c2, q, invs, inKeys).value.pre, invs, inKeys, arrays, vocabulary);
    case While(_, _, _) => LoopClean(c, q, invs, inKeys, arrays, vocabulary);
  }

  lemma AugIsSpelled(a: string, loc: Exp, e: Exp, arrays: set<string>)
    requires a in arrays && P.Identifier(a) && T.Spelled(loc, arrays) && T.Spelled(e, arrays)
    ensures T.Spelled(Aug(Var(a), loc, e), arrays) && Vars(Aug(Var(a), loc, e)) == {a} + Vars(loc) + Vars(e)
  {
    assert T.Spelled(Var(a), arrays);
  }

  lemma {:induction false} LoopClean(c: Stmt, q: Exp, invs: map<string, Exp>, inKeys: bool, arrays: set<string>,
                                     vocabulary: set<string>)
    requires c.While? && StmtIn(c, arrays) && StmtVars(c) <= vocabulary && Clean(q, arrays, vocabulary)
    requires (forall k | k in invs :: Clean(invs[k], arrays, vocabulary)) && LoopKeys(c) <= invs.Keys
    ensures Wp(c, q, invs, inKeys).Some?
    ensures Clean(Wp(c, q, invs, inKeys).value.pre, arrays, vocabulary)
    ensures CleanAll(Wp(c, q, invs, inKeys).value.conds, arrays, vocabulary)
    decreases c, 0
  {
    hide LoopKey, Replace, Wp, Clean, T.Spelled;
    var inv := invs[LoopKey(c)];
    WpWhile(c, q, invs, inKeys);
    WpClean(c.body, inv, invs, inKeys, arrays, vocabulary);
    var v := Wp(c.body, inv, invs, inKeys).value;
    CondsClean(inv, c.test, q, arrays, vocabulary);
    CondsClean(inv, c.test, v.pre, arrays, vocabulary);
  }

  lemma CondsClean(inv: Exp, test: Exp, q: Exp, arrays: set<string>, vocabulary: set<string>)
    requires Clean(inv, arrays, vocabulary) && T.Spelled(test, arrays) && Vars(test) <= vocabulary
    requires Clean(q, arrays, vocabulary)
    ensures Clean(ExitCond(inv, test, q), arrays, vocabulary) && Clean(StepCond(inv, test, q), arrays, vocabulary)
    ensures Clean(Implies(True, inv), arrays, vocabulary)
  {
    hide T.Spelled, FormulaIn, Clean, Vars;
    TestClean(test, arrays, vocabulary);
    CleanParts(Not(test), arrays, vocabulary);
    CleanParts(Bin(inv, And, Not(test)), arrays, vocabulary);
    CleanParts(Bin(inv, And, test), arrays, vocabulary);
    CleanParts(ExitCond(inv, test, q), arrays, vocabulary);
    CleanParts(StepCond(inv, test, q), arrays, vocabulary);
    CleanParts(Implies(True, inv), arrays, vocabulary);
  }

  lemma TestClean(test: Exp, arrays: set<string>, vocabulary: set<string>)
    requires T.Spelled(test, arrays) && Vars(test) <= vocabulary
    ensures Clean(test, arrays, vocabulary)
  {
    SpelledIsFormula(test, arrays);
  }

  lemma CleanCall(f: string, ps: seq<Exp>, arrays: set<string>, vocabulary: set<string>)
    ensures Clean(Call(f, ps), arrays, vocabulary) <==> CleanAll(ps, arrays, vocabulary)
  {
    hide T.Spelled;
    var e := Call(f, ps);
    forall i | 0 <= i < |ps| ensures Vars(ps[i]) <= Vars(e) { ParamVars(e, i); }
    if CleanAll(ps, arrays, vocabulary) {
      forall i | 0 <= i < |ps|
        ensures FormulaIn(ps[i], arrays) && Vars(ps[i]) <= vocabulary
      {
        assert Clean(ps[i], arrays, vocabulary);
      }
      forall x | x in VarsOf(ps) ensures x in vocabulary { var i :| 0 <= i < |ps| && x in Vars(ps[i]); }
      assert Vars(e) == VarsOf(ps);
    }
  }

  lemma VarClean(x: string, arrays: set<string>, vocabulary: set<string>)
    requires P.Identifier(x) && x in vocabulary
    ensures Clean(Var(x), arrays, vocabulary)
  {
  }

  lemma PointwiseClean(call: Exp, loopvars: seq<string>, arrays: set<string>, vocabulary: set<string>)
    requires call.Call? && Clean(call, arrays, vocabulary) && PointNames(loopvars, vocabulary)
    ensures Clean(PointwiseCall(call.fname, call.params, loopvars), arrays, vocabulary)
  {
    hide Clean, PVar;
    var xs := AsVars(PVars(loopvars));
    var ps := call.params + xs;
    CleanCall(call.fname, call.params, arrays, vocabulary);
    CleanCall(call.fname + "__2", ps, arrays, vocabulary);
    forall i | 0 <= i < |ps| ensures Clean(ps[i], arrays, vocabulary) {
      if i >= |call.params| {
        assert ps[i] == xs[i - |call.params|] == Var(PVars(loopvars)[i - |call.params|]);
        VarClean(PVars(loopvars)[i - |call.params|], arrays, vocabulary);
      }
    }
  }

  /** The names of the arbitrary point. */
  ghost predicate PointNames(loopvars: seq<string>, vocabulary: set<string>) {
    forall i | 0 <= i < |loopvars| :: P.Identifier(PVars(loopvars)[i]) && PVars(loopvars)[i] in vocabulary
  }

  lemma RewriteClean(e: Exp, loopvars: seq<string>, arrays: set<string>, vocabulary: set<string>)
    requires CondShape(e) && Clean(e, arrays, vocabulary) && PointNames(loopvars, vocabulary)
    ensures Clean(Rewrite(e, false, loopvars).0, arrays, vocabulary) && CondShape(Rewrite(e, false, loopvars).0)
    ensures !Rewrite(e, false, loopvars).1
  {
    hide Clean, Rewrite, CallFree, PVars, PointwiseCall, Leaf, PointNames;
    RewriteCond(e, loopvars);
    RewriteStaysEmittable(e, loopvars);
    LeafIsCall(e.cons);
    CleanParts(e, arrays, vocabulary);
    CleanParts(e.cons, arrays, vocabulary);
    if e.cons.Implies? { LeafIsCall(e.cons.cons); }
    PointwiseClean(Final(e.cons), loopvars, arrays, vocabulary);
    CleanParts(PointwiseConsequent(e.cons, loopvars), arrays, vocabulary);
    CleanParts(Rewrite(e, false, loopvars).0, arrays, vocabulary);
  }

  lemma RewritePre(call: Exp, loopvars: seq<string>)
    requires call.Call?
    ensures Rewrite(Implies(True, call), false, loopvars)
      == (Implies(True, PointwiseCall(call.fname, call.params, loopvars)), false)
  {
  }

  lemma RewritePreClean(e: Exp, loopvars: seq<string>, arrays: set<string>, vocabulary: set<string>)
    requires Consequent(e) && e.Implies? && Clean(e, arrays, vocabulary) && PointNames(loopvars, vocabulary)
    ensures Clean(Rewrite(e, false, loopvars).0, arrays, vocabulary) && Consequent(Rewrite(e, false, loopvars).0)
    ensures Rewrite(e, false, loopvars).0.Implies? && !Rewrite(e, false, loopvars).1
  {
    hide Clean, CallFree, PVars, PointwiseCall, Leaf, Rewrite, PointNames;
    LeafIsCall(e);
    LeafIsCall(e.cons);
    RewritePre(e.cons, loopvars);
    CleanParts(e, arrays, vocabulary);
    PointwiseClean(e.cons, loopvars, arrays, vocabulary);
    PointwiseCallIsLeaf(e.cons, loopvars);
    CleanParts(Rewrite(e, false, loopvars).0, arrays, vocabulary);
  }

  // ----- what the assert program needs -----

  ghost function EnvOf(es: seq<Exp>, supply: nat -> string, vocabulary: set<string>, m: Model): H.Env {
    H.Env(supply, vocabulary, set i, a | 0 <= i < |es| && a in H.Augs(es[i]) :: a, m)
  }

  ghost predicate Fresh(supply: nat -> string, vocabulary: set<string>) {
    && (forall i: nat, j: nat | i != j :: supply(i) != supply(j))
    && (forall i: nat :: supply(i) !in vocabulary)
  }

  lemma EnvIsSuitable(es: seq<Exp>, supply: nat -> string, arrays: set<string>, vocabulary: set<string>, m: Model)
    requires Fresh(supply, vocabulary) && CleanAll(es, arrays, vocabulary)
    ensures H.Suitable(EnvOf(es, supply, vocabulary, m))
  {
    hide TreeToStr, FormulaIn, H.Augs, T.Spelled;
    var env := EnvOf(es, supply, vocabulary, m);
    forall i | 0 <= i < |es| ensures forall a | a in H.Augs(es[i]) :: T.Spelled(a, arrays) {
      assert Clean(es[i], arrays, vocabulary);
      AugsAreSpelled(es[i], arrays);
    }
    forall a, b | a in env.universe && b in env.universe && TreeToStr(a) == TreeToStr(b)
      ensures a == b
    {
      T.TextsAreDistinct(a, b, arrays);
    }
  }

  lemma CondIsPrintable(es: seq<Exp>, i: nat, supply: nat -> string, arrays: set<string>, vocabulary: set<string>,
                        m: Model)
    requires i < |es| && CondShape(es[i]) && CleanAll(es, arrays, vocabulary)
    ensures H.Printable(EnvOf(es, supply, vocabulary, m), es[i])
  {
    hide CallFree, Leaf, Emit, Simplify, ImplFree, FormulaIn;
    var e := es[i];
    assert Clean(e, arrays, vocabulary);
    ConditionsAreEmittable(e);
    CheckParts(e);
    assert forall a | a in H.Augs(e) :: a in EnvOf(es, supply, vocabulary, m).universe;
  }

  lemma CheckParts(e: Exp)
    requires CondShape(e)
    ensures |CondCheck(e).guards| == 1
    ensures H.Augs(CondCheck(e).e) <= H.Augs(e) && H.Augs(CondCheck(e).guards[0]) <= H.Augs(e)
    ensures Vars(CondCheck(e).e) <= Vars(e) && Vars(CondCheck(e).guards[0]) <= Vars(e)
  {
    hide CallFree, Leaf;
  }

  lemma PreIsPrintable(es: seq<Exp>, i: nat, supply: nat -> string, arrays: set<string>, vocabulary: set<string>,
                       m: Model)
    requires i < |es| && Consequent(es[i]) && es[i].Implies? && CleanAll(es, arrays, vocabulary)
    ensures H.Printable(EnvOf(es, supply, vocabulary, m), es[i])
  {
    hide CallFree, Leaf, Emit, Simplify, ImplFree, FormulaIn;
    var e := es[i];
    assert Clean(e, arrays, vocabulary);
    PreIsEmittable(e);
    assert H.Augs(e.cons) <= H.Augs(e) && Vars(e.cons) <= Vars(e);
    assert forall a | a in H.Augs(e) :: a in EnvOf(es, supply, vocabulary, m).universe;
  }

  // ----- the generator, as it runs -----

  /** What the generator is given: a program with a loop whose names are identifiers, a call of
      the postcondition, a call for the invariant of every loop, and names for the arbitrary
      point that occur nowhere else. */
  ghost predicate Input(c: Stmt, q: Exp, invs: map<string, Exp>, loopvars: seq<string>, arrays: set<string>,
                        vocabulary: set<string>) {
    && PlainStmt(c) && StmtIn(c, arrays) && StmtVars(c) <= vocabulary && LoopKeys(c) != {} && LoopKeys(c) <= invs.Keys
    && Leaf(q) && q.fname == "postcondition" && Clean(q, arrays, vocabulary)
    && (forall k | k in invs :: Leaf(invs[k]) && Clean(invs[k], arrays, vocabulary))
    && NoDuplicates(loopvars) && PointNames(loopvars, vocabulary)
  }

  /** The invariants' names, and that they and the program do not mention the arbitrary point. */
  ghost predicate Separate(c: Stmt, invs: map<string, Exp>, loopvars: seq<string>, names: set<string>) {
    var xs := set x | x in PVars(loopvars);
    StmtVars(c) !! xs && InvariantCalls(invs, names, xs)
  }

  /** generate_sketch.py:204-214. The emitted program violates none of its asserts in any
      admissible state if and only if all the verification conditions are valid. If none is
      violated, every run of the program that ends, ends with the postcondition, provided no
      assigned variable is pending in a key. */
  method Generate(c: Stmt, q: Exp, invs: map<string, Exp>, loopvars: seq<string>, supply: nat -> string,
                  ghost arrays: set<string>, ghost vocabulary: set<string>, ghost names: set<string>, ghost m: Model,
                  ghost admissible: State -> bool)
    returns (decls: seq<H.Decl>, asserts: seq<Check>)
    requires Input(c, q, invs, loopvars, arrays, vocabulary) && Fresh(supply, vocabulary)
    requires Separate(c, invs, loopvars, names)
    requires PointwiseModel(m, names, |loopvars|) && Closed(admissible, set x | x in PVars(loopvars))
    ensures Wp(c, q, invs, false).Some?
    ensures H.InOrder(decls, vocabulary)
    ensures forall i | 0 <= i < |asserts| :: H.Lowered(asserts[i])
    ensures (forall s | admissible(s) :: AllPass(asserts, H.RunDecls(decls, s, m), m))
      <==> ValidSet(Wp(c, q, invs, false).value, admissible, m)
    ensures (Substitutable(c, q, invs, false, KeyVars(q)) && Closed(admissible, Assigned(c))
             && forall s | admissible(s) :: AllPass(asserts, H.RunDecls(decls, s, m), m))
            ==> Correct(c, q, admissible, m)
  {
    hide LoopKey, Wp, Clean, PlainStmt, StmtIn, StmtVars, LoopKeys, Leaf, Rewrite, Fresh, Correct, Substitutable,
      KeyVars, Assigned, Separate, PointwiseModel, Closed, ValidSet, H.InOrder, H.RunDecls, H.Lowered, AllPass,
      CondShape, Consequent, PVars, PointNames, NoDuplicates;
    ghost var v := GeneratedShapes(c, q, invs, loopvars, arrays, vocabulary);
    var wpc := new WeakestPrecondition();
    var pre := wpc.Get(c, q, invs);
    var replacer := new RHSInvariantReplacer(loopvars);
    var conds := replacer.Visit(pre.value);
    var additionalConds: seq<Exp> := [];
    replacer := new RHSInvariantReplacer(loopvars);
    for i := 0 to |wpc.additionalConditions|
      invariant replacer.loopvars == loopvars && !replacer.inThen
      invariant wpc.additionalConditions == v.conds
      invariant additionalConds == seq(i, j requires 0 <= j < i <= |v.conds| => Rewrite(v.conds[j], false, loopvars).0)
    {
      var r := replacer.Visit(wpc.additionalConditions[i]);
      additionalConds := additionalConds + [r];
    }
    ghost var w := RewriteAll(v, loopvars);
    assert additionalConds == w.conds && conds == w.pre;
    ghost var es := [w.pre] + w.conds;
    ghost var env := EnvOf(es, supply, vocabulary, m);
    AllPrintable(w, supply, arrays, vocabulary, m);
    var sketch := new H.ToSketch(supply);
    asserts := sketch.ToStr(conds, additionalConds, env);
    decls := sketch.decls;
    SameValidity(c, q, invs, loopvars, arrays, vocabulary, names, admissible, m);
    ValidEverywhere(w, admissible, m);
    if ValidSet(v, admissible, m) && Substitutable(c, q, invs, false, KeyVars(q)) && Closed(admissible, Assigned(c)) {
      ValidConditionsSuffice(c, q, invs, KeyVars(q), admissible, m);
    }
  }

  /** The conditions of such an input, and the shape of their pointwise form. */
  lemma GeneratedShapes(c: Stmt, q: Exp, invs: map<string, Exp>, loopvars: seq<string>, arrays: set<string>,
                        vocabulary: set<string>) returns (v: Vcs)
    requires Input(c, q, invs, loopvars, arrays, vocabulary)
    ensures Wp(c, q, invs, false) == Some(v)
    ensures !Rewrite(v.pre, false, loopvars).1
    ensures forall i | 0 <= i < |v.conds| :: !Rewrite(v.conds[i], false, loopvars).1
    ensures WellShaped(RewriteAll(v, loopvars), arrays, vocabulary)
  {
    hide LoopKey, Wp, Clean, PlainStmt, StmtIn, StmtVars, LoopKeys, Leaf, Rewrite, CondShape, Consequent, PVars,
      PointNames, NoDuplicates;
    LeafConsequent(q);
    WpShapes(c, q, invs, false);
    WpClean(c, q, invs, false, arrays, vocabulary);
    v := Wp(c, q, invs, false).value;
    RewritePreClean(v.pre, loopvars, arrays, vocabulary);
    forall i | 0 <= i < |v.conds|
      ensures !Rewrite(v.conds[i], false, loopvars).1
      ensures CondShape(Rewrite(v.conds[i], false, loopvars).0)
      ensures Clean(Rewrite(v.conds[i], false, loopvars).0, arrays, vocabulary)
    {
      assert Clean(v.conds[i], arrays, vocabulary);
      RewriteClean(v.conds[i], loopvars, arrays, vocabulary);
    }
  }

  lemma LeafConsequent(q: Exp)
    requires Leaf(q)
    ensures Consequent(q) && Final(q) == q && !q.Implies?
  {
  }

  ghost predicate WellShaped(w: Vcs, arrays: set<string>, vocabulary: set<string>) {
    && Consequent(w.pre) && w.pre.Implies? && Clean(w.pre, arrays, vocabulary)
    && forall i | 0 <= i < |w.conds| :: CondShape(w.conds[i]) && Clean(w.conds[i], arrays, vocabulary)
  }

  lemma AllPrintable(w: Vcs, supply: nat -> string, arrays: set<string>, vocabulary: set<string>, m: Model)
    requires WellShaped(w, arrays, vocabulary) && Fresh(supply, vocabulary)
    ensures var env := EnvOf([w.pre] + w.conds, supply, vocabulary, m);
      && H.Suitable(env) && H.Printable(env, w.pre) && forall i | 0 <= i < |w.conds| :: H.Printable(env, w.conds[i])
  {
    hide Clean, Consequent, CondShape, EnvOf, H.Suitable, H.Printable, Fresh;
    var es := [w.pre] + w.conds;
    forall i | 0 <= i < |es| ensures Clean(es[i], arrays, vocabulary) { if i > 0 { assert es[i] == w.conds[i - 1]; } }
    EnvIsSuitable(es, supply, arrays, vocabulary, m);
    PreIsPrintable(es, 0, supply, arrays, vocabulary, m);
    forall i | 0 <= i < |w.conds| ensures H.Printable(EnvOf(es, supply, vocabulary, m), w.conds[i]) {
      assert es[i + 1] == w.conds[i];
      CondIsPrintable(es, i + 1, supply, arrays, vocabulary, m);
    }
  }

  lemma SameValidity(c: Stmt, q: Exp, invs: map<string, Exp>, loopvars: seq<string>, arrays: set<string>,
                     vocabulary: set<string>,
                     names: set<string>, admissible: State -> bool, m: Model)
    requires Input(c, q, invs, loopvars, arrays, vocabulary) && Separate(c, invs, loopvars, names)
    requires PointwiseModel(m, names, |loopvars|) && Closed(admissible, set x | x in PVars(loopvars))
    ensures Wp(c, q, invs, false).Some?
    ensures ValidSet(Wp(c, q, invs, false).value, admissible, m)
      <==> ValidSet(RewriteAll(Wp(c, q, invs, false).value, loopvars), admissible, m)
  {
    hide LoopKey, Wp, Clean, PlainStmt, StmtIn, StmtVars, LoopKeys, Leaf, Rewrite, PVars, PointNames, NoDuplicates,
      InvariantCalls, PointwiseModel, Closed, ValidSet, RewriteAll;
    LeafConsequent(q);
    PointwiseReplacementIsEquivalent(c, q, invs, false, loopvars, names, admissible, m);
  }

  lemma ValidEverywhere(w: Vcs, admissible: State -> bool, m: Model)
    ensures ValidSet(w, admissible, m)
       <==> forall s | admissible(s) :: Holds(w.pre, s, m) && forall i | 0 <= i < |w.conds| :: Holds(w.conds[i], s, m)
  {
    hide Eval, Holds;
  }

  /** Every run that ends, ends with the postcondition. */
  ghost predicate Correct(c: Stmt, q: Exp, admissible: State -> bool, m: Model) {
    forall s, n: nat | admissible(s) && Run(c, s, n, m).Some? :: Holds(q, Run(c, s, n, m).value, m)
  }

  lemma ValidConditionsSuffice(c: Stmt, q: Exp, invs: map<string, Exp>, keys: set<string>, admissible: State -> bool,
                               m: Model)
    requires LoopKeys(c) <= invs.Keys && Wp(c, q, invs, false).Some?
    requires ValidSet(Wp(c, q, invs, false).value, admissible, m)
    requires Substitutable(c, q, invs, false, keys) && Closed(admissible, Assigned(c))
    ensures Correct(c, q, admissible, m)
  {
    hide LoopKey, LoopKeys, Wp, Holds, Run, Substitutable;
    forall s, n: nat | admissible(s) && Run(c, s, n, m).Some? ensures Holds(q, Run(c, s, n, m).value, m) {
      WpSound(c, q, invs, false, keys, admissible, m, s, n);
    }
  }
}
