/** Relative completeness of the generated conditions (backend/verify.py:81-118). */
module Completeness {
  import opened StencilIr
  import opened Interpret
  import opened Verify
  import opened VerifyTheorems

  /** The semantic weakest liberal precondition. */
  ghost predicate Wlp(c: Stmt, post: State -> bool, s: State, m: Model) {
    forall n: nat :: Run(c, s, n, m).Some? ==> post(Run(c, s, n, m).value)
  }

  lemma {:induction false} WlpSeq(c1: Stmt, c2: Stmt, post: State -> bool, s: State, m: Model)
    ensures Wlp(Seq(c1, c2), post, s, m) <==> Wlp(c1, t => Wlp(c2, post, t, m), s, m)
  {
    var mid := t => Wlp(c2, post, t, m);
    if Wlp(Seq(c1, c2), post, s, m) {
      forall n: nat, k: nat | Run(c1, s, n, m).Some? && Run(c2, Run(c1, s, n, m).value, k, m).Some?
        ensures post(Run(c2, Run(c1, s, n, m).value, k, m).value)
      {
        var top := if n <= k then k else n;
        RunMonotone(c1, s, n, top, m);
        RunMonotone(c2, Run(c1, s, n, m).value, k, top, m);
        assert Run(Seq(c1, c2), s, top, m).Some?;
      }
    }
    if Wlp(c1, mid, s, m) {
      forall n: nat | Run(Seq(c1, c2), s, n, m).Some? ensures post(Run(Seq(c1, c2), s, n, m).value) {
        assert mid(Run(c1, s, n, m).value);
      }
    }
  }

  lemma {:induction false} WlpWhile(c: Stmt, post: State -> bool, s: State, m: Model)
    requires c.While?
    ensures Wlp(c, post, s, m) <==>
      if Holds(c.test, s, m) then Wlp(c.body, t => Wlp(c, post, t, m), s, m) else post(s)
  {
    if Holds(c.test, s, m) {
      WlpSeq(c.body, c, post, s, m);
      if Wlp(c, post, s, m) {
        forall n: nat | Run(Seq(c.body, c), s, n, m).Some? ensures post(Run(Seq(c.body, c), s, n, m).value) {
          assert Run(c, s, n + 1, m) == Run(Seq(c.body, c), s, n, m);
        }
      }
      if Wlp(Seq(c.body, c), post, s, m) {
        forall n: nat | Run(c, s, n, m).Some? ensures post(Run(c, s, n, m).value) {
          assert Run(c, s, n, m) == Run(Seq(c.body, c), s, n - 1, m);
        }
      }
    } else {
      assert Run(c, s, 0, m) == Some(s);
    }
  }

  /** The semantic invariant of the loop with text `key`: the weakest liberal precondition of
      that loop for what follows it inside `c`. */
  ghost predicate SemanticInv(c: Stmt, post: State -> bool, key: string, s: State, m: Model) {
    match c
    case Seq(c1, c2) =>
      if key in LoopKeys(c2) then SemanticInv(c2, post, key, s, m)
      else SemanticInv(c1, t => Wlp(c2, post, t, m), key, s, m)
    case While(_, _, body) =>
      if key == LoopKey(c) then Wlp(c, post, s, m)
      else SemanticInv(body, t => Wlp(c, post, t, m), key, s, m)
    case _ => true
  }

  /** `m` reads every invariant of `c` as its semantic invariant. */
  ghost predicate ReadsSemantically(c: Stmt, post: State -> bool, invs: map<string, Exp>, admissible: State -> bool,
                                    m: Model)
    requires LoopKeys(c) <= invs.Keys
  {
    forall key, s | key in LoopKeys(c) && admissible(s) :: Holds(invs[key], s, m) <==> SemanticInv(c, post, key, s, m)
  }

  /** The generated conditions are complete: with the semantic invariants all of them are valid,
      and the returned formula holds in exactly the states whose ending runs meet the postcondition. */
  lemma {:induction false} WpComplete(c: Stmt, q: Exp, post: State -> bool, invs: map<string, Exp>, inKeys: bool,
                                      keys: set<string>,
                                      admissible: State -> bool, m: Model)
    requires LoopKeys(c) <= invs.Keys && DistinctLoops(c) && Substitutable(c, q, invs, inKeys, keys)
    requires Closed(admissible, Assigned(c))
    requires forall s | admissible(s) :: Holds(q, s, m) <==> post(s)
    requires ReadsSemantically(c, post, invs, admissible, m)
    ensures Wp(c, q, invs, inKeys).Some?
    ensures AllValid(Wp(c, q, invs, inKeys).value.conds, admissible, m)
    ensures forall s | admissible(s) :: Holds(Wp(c, q, invs, inKeys).value.pre, s, m) <==> Wlp(c, post, s, m)
    decreases c, 1
  {
    WpDefined(c, q, invs, inKeys);
    match c
    case Just(_) =>
      forall s | admissible(s) ensures post(s) <==> Wlp(c, post, s, m) { assert Run(c, s, 0, m) == Some(s); }
    case Seq(c1, c2) => CompleteSeq(c, q, post, invs, inKeys, keys, admissible, m);
    case While(_, _, _) => CompleteWhile(c, q, post, invs, inKeys, keys, admissible, m);
    case _ =>
      forall s | admissible(s) ensures Holds(Wp(c, q, invs, inKeys).value.pre, s, m) <==> Wlp(c, post, s, m) {
        AssignExact(c, q, invs, inKeys, keys, s, 0, m);
        RunStaysAdmissible(c, admissible, m, s, 0);
        assert forall n: nat :: Run(c, s, n, m) == Run(c, s, 0, m);
      }
  }

  lemma {:induction false} CompleteSeq(c: Stmt, q: Exp, post: State -> bool, invs: map<string, Exp>, inKeys: bool,
                                       keys: set<string>,
                                       admissible: State -> bool, m: Model)
    requires c.Seq?
    requires LoopKeys(c) <= invs.Keys && DistinctLoops(c) && Substitutable(c, q, invs, inKeys, keys)
    requires Closed(admissible, Assigned(c))
    requires forall s | admissible(s) :: Holds(q, s, m) <==> post(s)
    requires ReadsSemantically(c, post, invs, admissible, m)
    ensures Wp(c, q, invs, inKeys).Some?
    ensures AllValid(Wp(c, q, invs, inKeys).value.conds, admissible, m)
    ensures forall s | admissible(s) :: Holds(Wp(c, q, invs, inKeys).value.pre, s, m) <==> Wlp(c, post, s, m)
    decreases c, 0
  {
    var Seq(c1, c2) := c;
    SubstitutableSeq(c, q, invs, inKeys, keys);
    WpDefined(c, q, invs, inKeys);
    var mid := t => Wlp(c2, post, t, m);
    forall key, s | key in LoopKeys(c2) && admissible(s)
      ensures Holds(invs[key], s, m) <==> SemanticInv(c2, post, key, s, m)
    {
      assert SemanticInv(c, post, key, s, m) == SemanticInv(c2, post, key, s, m);
    }
    WpComplete(c2, q, post, invs, inKeys, keys, admissible, m);
    var v2 := Wp(c2, q, invs, inKeys).value;
    forall key, s | key in LoopKeys(c1) && admissible(s)
      ensures Holds(invs[key], s, m) <==> SemanticInv(c1, mid, key, s, m)
    {
      assert SemanticInv(c, post, key, s, m) == SemanticInv(c1, mid, key, s, m);
    }
    WpComplete(c1, v2.pre, mid, invs, inKeys, PendingKeys(c2, keys), admissible, m);
    ValidSplit(v2.conds, Wp(c1, v2.pre, invs, inKeys).value.conds, admissible, m);
    forall s | admissible(s) ensures Wlp(c, post, s, m) <==> Wlp(c1, mid, s, m) { WlpSeq(c1, c2, post, s, m); }
  }

  lemma {:induction false} CompleteWhile(c: Stmt, q: Exp, post: State -> bool, invs: map<string, Exp>, inKeys: bool,
                                         keys: set<string>,
                                         admissible: State -> bool, m: Model)
    requires c.While?
    requires LoopKeys(c) <= invs.Keys && DistinctLoops(c) && Substitutable(c, q, invs, inKeys, keys)
    requires Closed(admissible, Assigned(c))
    requires forall s | admissible(s) :: Holds(q, s, m) <==> post(s)
    requires ReadsSemantically(c, post, invs, admissible, m)
    ensures Wp(c, q, invs, inKeys).Some?
    ensures AllValid(Wp(c, q, invs, inKeys).value.conds, admissible, m)
    ensures forall s | admissible(s) :: Holds(Wp(c, q, invs, inKeys).value.pre, s, m) <==> Wlp(c, post, s, m)
    decreases c, 0
  {
    var While(_, test, body) := c;
    var inv := invs[LoopKey(c)];
    var again := t => Wlp(c, post, t, m);
    assert forall s | admissible(s) :: Holds(inv, s, m) <==> again(s) by {
      forall s | admissible(s) ensures Holds(inv, s, m) <==> again(s) {
        assert Holds(inv, s, m) <==> SemanticInv(c, post, LoopKey(c), s, m);
      }
    }
    forall key, s | key in LoopKeys(body) && admissible(s)
      ensures Holds(invs[key], s, m) <==> SemanticInv(body, again, key, s, m)
    {
      InnerTextsAreShorter(c, key);
      assert SemanticInv(c, post, key, s, m) == SemanticInv(body, again, key, s, m);
    }
    WpWhile(c, q, invs, inKeys);
    WpComplete(body, inv, again, invs, inKeys, {}, admissible, m);
    var vb := Wp(body, inv, invs, inKeys).value;
    forall s | admissible(s)
      ensures Holds(ExitCond(inv, test, q), s, m) && Holds(StepCond(inv, test, vb.pre), s, m)
    {
      WlpWhile(c, post, s, m);
      CondsMean(inv, test, q, s, m);
      CondsMean(inv, test, vb.pre, s, m);
    }
    WhileValid(inv, test, q, vb, admissible, m);
    forall s | admissible(s) ensures Holds(Implies(True, inv), s, m) <==> Wlp(c, post, s, m) {
      CondsMean(inv, test, q, s, m);
      assert again(s) == Wlp(c, post, s, m);
    }
  }

  // ----- such a reading of the invariants exists -----

  /** The name of a loop's invariant function (generate_sketch.py:243); keys are injective, so
      the loop variable the source also puts into the name adds nothing. */
  function InvName(key: string): string { "I_" + key }

  /** Every loop's invariant is called with all declared variables (generate_sketch.py:244-245). */
  function InvCall(key: string, vars: seq<string>): Exp { VarsCall(InvName(key), vars) }

  function VarsCall(f: string, vars: seq<string>): Exp {
    Call(f, seq(|vars|, i requires 0 <= i < |vars| => Var(vars[i])))
  }

  predicate Calls(e: Exp, names: set<string>) {
    match e
    case Bin(l, _, r) => Calls(l, names) || Calls(r, names)
    case Not(b) => Calls(b, names)
    case Arr(a, loc) => Calls(a, names) || Calls(loc, names)
    case Aug(a, k, v) => Calls(a, names) || Calls(k, names) || Calls(v, names)
    case Call(f, ps) => f in names || exists i | 0 <= i < |ps| :: Calls(ps[i], names)
    case Implies(a, c) => Calls(a, names) || Calls(c, names)
    case _ => false
  }

  lemma {:induction false} UncalledNamesDoNotMatter(e: Exp, names: set<string>, s: State, m: Model, m': Model)
    requires !Calls(e, names) && m.bin == m'.bin
    requires forall f, vs | f !in names :: m.calls(f, vs) == m'.calls(f, vs)
    ensures Eval(e, s, m) == Eval(e, s, m')
  {
    match e
    case Bin(l, _, r) => UncalledNamesDoNotMatter(l, names, s, m, m'); UncalledNamesDoNotMatter(r, names, s, m, m');
    case Not(b) => UncalledNamesDoNotMatter(b, names, s, m, m');
    case Arr(a, loc) => UncalledNamesDoNotMatter(a, names, s, m, m'); UncalledNamesDoNotMatter(loc, names, s, m, m');
    case Aug(a, k, v) =>
      UncalledNamesDoNotMatter(a, names, s, m, m');
      UncalledNamesDoNotMatter(k, names, s, m, m');
      UncalledNamesDoNotMatter(v, names, s, m, m');
    case Implies(a, c) => UncalledNamesDoNotMatter(a, names, s, m, m'); UncalledNamesDoNotMatter(c, names, s, m, m');
    case Call(f, ps) =>
      forall i | 0 <= i < |ps| ensures Eval(ps[i], s, m) == Eval(ps[i], s, m') {
        UncalledNamesDoNotMatter(ps[i], names, s, m, m');
      }
      assert EvalAll(ps, s, m) == EvalAll(ps, s, m');
    case _ =>
  }

  lemma {:induction false} PlainRunIgnoresCalls(c: Stmt, s: State, n: nat, m: Model, m': Model)
    requires PlainStmt(c) && m.bin == m'.bin
    ensures Run(c, s, n, m) == Run(c, s, n, m')
    decreases n, c
  {
    match c
    case Just(_) =>
    case AssignVar(_, e) => PlainIgnoresCalls(e, s, m, m');
    case AssignArr(_, loc, e) => PlainIgnoresCalls(e, s, m, m'); PlainIgnoresCalls(loc, s, m, m');
    case Seq(c1, c2) =>
      PlainRunIgnoresCalls(c1, s, n, m, m');
      if Run(c1, s, n, m).Some? { PlainRunIgnoresCalls(c2, Run(c1, s, n, m).value, n, m, m'); }
    case While(_, test, body) =>
      PlainIgnoresCalls(test, s, m, m');
      if Holds(test, s, m) && n > 0 {
        PlainRunIgnoresCalls(body, s, n - 1, m, m');
        if Run(body, s, n - 1, m).Some? { PlainRunIgnoresCalls(c, Run(body, s, n - 1, m).value, n - 1, m, m'); }
      }
  }

  lemma WlpIgnoresCalls(c: Stmt, post: State -> bool, post': State -> bool, s: State, m: Model, m': Model)
    requires PlainStmt(c) && m.bin == m'.bin && forall t :: post(t) == post'(t)
    ensures Wlp(c, post, s, m) <==> Wlp(c, post', s, m')
  {
    forall n: nat ensures Run(c, s, n, m) == Run(c, s, n, m') { PlainRunIgnoresCalls(c, s, n, m, m'); }
  }

  lemma {:induction false} SemanticInvIgnoresCalls(c: Stmt, post: State -> bool, post': State -> bool, key: string,
                                                   s: State, m: Model, m': Model)
    requires PlainStmt(c) && m.bin == m'.bin && forall t :: post(t) == post'(t)
    ensures SemanticInv(c, post, key, s, m) <==> SemanticInv(c, post', key, s, m')
  {
    match c
    case Seq(c1, c2) =>
      forall t ensures Wlp(c2, post, t, m) == Wlp(c2, post', t, m') { WlpIgnoresCalls(c2, post, post', t, m, m'); }
      if key in LoopKeys(c2) { SemanticInvIgnoresCalls(c2, post, post', key, s, m, m'); }
      else { SemanticInvIgnoresCalls(c1, t => Wlp(c2, post, t, m), t => Wlp(c2, post', t, m'), key, s, m, m'); }
    case While(_, _, body) =>
      forall t ensures Wlp(c, post, t, m) == Wlp(c, post', t, m') { WlpIgnoresCalls(c, post, post', t, m, m'); }
      SemanticInvIgnoresCalls(body, t => Wlp(c, post, t, m), t => Wlp(c, post', t, m'), key, s, m, m');
    case _ =>
  }

  /** The state with exactly the variables `vars`, holding `values`. */
  function StateOf(vars: seq<string>, values: seq<Value>): State {
    if vars == [] || values == [] then map[] else StateOf(vars[1..], values[1..])[vars[0] := values[0]]
  }

  lemma {:induction false} StateOfValues(vars: seq<string>, s: State)
    ensures
      var t := StateOf(vars, seq(|vars|, i requires 0 <= i < |vars| => Lookup(s, vars[i])));
      t.Keys == (set x | x in vars) && forall x | x in vars :: t[x] == Lookup(s, x)
  {
    if vars != [] {
      StateOfValues(vars[1..], s);
      assert seq(|vars|, i requires 0 <= i < |vars| => Lookup(s, vars[i]))[1..]
          == seq(|vars[1..]|, i requires 0 <= i < |vars[1..]| => Lookup(s, vars[1..][i]));
      assert vars == [vars[0]] + vars[1..];
    }
  }

  /** The states in which exactly the declared variables have values. */
  function Declares(vars: seq<string>): State -> bool {
    (s: State) => s.Keys == (set x | x in vars)
  }

  ghost function SemanticModel(c: Stmt, q: Exp, vars: seq<string>, m0: Model): Model {
    Model(m0.bin, (f: string, values: seq<Value>) =>
      if |f| >= 2 && f == InvName(f[2..]) && f[2..] in LoopKeys(c)
      then SemanticInv(c, t => Holds(q, t, m0), f[2..], StateOf(vars, values), m0)
      else m0.calls(f, values))
  }

  lemma CallReadsState(key: string, vars: seq<string>, s: State, m: Model)
    requires s.Keys == set x | x in vars
    ensures exists values ::
      && Holds(InvCall(key, vars), s, m) == m.calls(InvName(key), values)
      && StateOf(vars, values) == s
  {
    CallPassesValues(InvName(key), vars, s, m);
    StateOfValues(vars, s);
  }

  /** A call with the declared variables passes their values. */
  lemma CallPassesValues(f: string, vars: seq<string>, s: State, m: Model)
    ensures Holds(VarsCall(f, vars), s, m) == m.calls(f, seq(|vars|, i requires 0 <= i < |vars| => Lookup(s, vars[i])))
  {
    var ps := seq(|vars|, i requires 0 <= i < |vars| => Var(vars[i]));
    assert EvalAll(ps, s, m) == seq(|vars|, i requires 0 <= i < |vars| => Lookup(s, vars[i]));
  }

  function InvNames(c: Stmt): set<string> { set key | key in LoopKeys(c) :: InvName(key) }

  function InvCalls(c: Stmt, vars: seq<string>): map<string, Exp> { map key | key in LoopKeys(c) :: InvCall(key, vars) }

  lemma SemanticModelAgrees(c: Stmt, q: Exp, vars: seq<string>, m0: Model, f: string, values: seq<Value>)
    requires f !in InvNames(c)
    ensures SemanticModel(c, q, vars, m0).calls(f, values) == m0.calls(f, values)
  {
    var key := if |f| >= 2 then f[2..] else "";
    assert key in LoopKeys(c) ==> InvName(key) in InvNames(c);
  }

  lemma SemanticModelReads(c: Stmt, q: Exp, vars: seq<string>, m0: Model, key: string, s: State)
    requires PlainStmt(c) && key in LoopKeys(c) && s.Keys == (set x | x in vars)
    requires !Calls(q, InvNames(c))
    ensures
      var m := SemanticModel(c, q, vars, m0);
      Holds(InvCall(key, vars), s, m) <==> SemanticInv(c, t => Holds(q, t, m), key, s, m)
  {
    var m := SemanticModel(c, q, vars, m0);
    var post, post0 := (t: State) => Holds(q, t, m), (t: State) => Holds(q, t, m0);
    CallReadsState(key, vars, s, m);
    assert InvName(key)[2..] == key;
    forall f, vs | f !in InvNames(c)
      ensures m.calls(f, vs) == m0.calls(f, vs)
    {
      SemanticModelAgrees(c, q, vars, m0, f, vs);
    }
    forall t ensures post(t) == post0(t) { UncalledNamesDoNotMatter(q, InvNames(c), t, m, m0); }
    SemanticInvIgnoresCalls(c, post, post0, key, s, m, m0);
  }

  /** Relative completeness: for every program with pairwise distinct loop texts, any reading
      `m0` of arithmetic and of the postcondition extends to a reading `m` of the invariants
      under which all side conditions are valid and the returned formula is the weakest
      liberal precondition. */
  lemma RelativelyComplete(c: Stmt, q: Exp, vars: seq<string>, inKeys: bool, keys: set<string>, m0: Model)
    returns (m: Model)
    requires PlainStmt(c) && DistinctLoops(c) && Assigned(c) <= (set x | x in vars)
    requires inKeys || (KeySafe(c, keys) && KeyVars(q) <= keys)
    requires !Calls(q, InvNames(c))
    ensures m.bin == m0.bin && forall f, vs | f !in InvNames(c) :: m.calls(f, vs) == m0.calls(f, vs)
    ensures Wp(c, q, InvCalls(c, vars), inKeys).Some?
    ensures AllValid(Wp(c, q, InvCalls(c, vars), inKeys).value.conds, Declares(vars), m)
    ensures forall s | Declares(vars)(s) ::
      Holds(Wp(c, q, InvCalls(c, vars), inKeys).value.pre, s, m) <==> Wlp(c, t => Holds(q, t, m0), s, m0)
  {
    hide LoopKey, Eval, Wp, Run;
    m := SemanticModel(c, q, vars, m0);
    var invs := InvCalls(c, vars);
    var admissible := Declares(vars);
    var post, post0 := (t: State) => Holds(q, t, m), (t: State) => Holds(q, t, m0);
    forall f, vs | f !in InvNames(c)
      ensures m.calls(f, vs) == m0.calls(f, vs)
    {
      SemanticModelAgrees(c, q, vars, m0, f, vs);
    }
    forall key, s | key in LoopKeys(c) && admissible(s)
      ensures Holds(invs[key], s, m) <==> SemanticInv(c, post, key, s, m)
    {
      SemanticModelReads(c, q, vars, m0, key, s);
    }
    forall key | key in invs ensures KeyVars(invs[key]) == {} { InvCallHasNoKeys(key, vars); }
    assert Closed(admissible, Assigned(c)) by {
      forall s, x, v {:trigger admissible(s[x := v])} | admissible(s) && x in Assigned(c)
        ensures admissible(s[x := v])
      {
        assert s[x := v].Keys == s.Keys + {x};
      }
    }
    WpComplete(c, q, post, invs, inKeys, keys, admissible, m);
    forall t ensures post(t) == post0(t) { UncalledNamesDoNotMatter(q, InvNames(c), t, m, m0); }
    forall s | admissible(s)
      ensures Wlp(c, post, s, m) <==> Wlp(c, post0, s, m0)
    {
      WlpIgnoresCalls(c, post, post0, s, m, m0);
    }
  }

  lemma InvCallHasNoKeys(key: string, vars: seq<string>)
    ensures KeyVars(InvCall(key, vars)) == {}
  {
    VarsCallHasNoKeys(InvName(key), vars);
  }

  lemma VarsCallHasNoKeys(f: string, vars: seq<string>)
    ensures KeyVars(VarsCall(f, vars)) == {}
  {
    var ps := seq(|vars|, i requires 0 <= i < |vars| => Var(vars[i]));
    forall i | 0 <= i < |ps| ensures KeyVars(ps[i]) == {} {}
  }
}
