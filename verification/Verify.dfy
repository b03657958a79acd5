/** The verification-condition generator (backend/verify.py). */
module Verify {
  import opened StencilIr
  import opened Interpret

  // ----- substitution -----

  /** `Q[r/x]`. The replacer of verify.py:53-64 rewrites the base and the value of an augmented
      array but copies its key: that is `inKeys == false`. The docstring of verify.py:41-50
      promises `inKeys == true`. */
  function Replace(q: Exp, x: string, r: Exp, inKeys: bool): Exp {
    match q
    case True => q
    case Num(_) => q
    case Var(y) => if y == x then r else q
    case Bin(a, op, b) => Bin(Replace(a, x, r, inKeys), op, Replace(b, x, r, inKeys))
    case Not(b) => Not(Replace(b, x, r, inKeys))
    case Arr(a, loc) => Arr(Replace(a, x, r, inKeys), Replace(loc, x, r, inKeys))
    case Aug(a, k, v) =>
      Aug(Replace(a, x, r, inKeys), if inKeys then Replace(k, x, r, inKeys) else k, Replace(v, x, r, inKeys))
    case Call(f, ps) => Call(f, ReplaceAll(ps, x, r, inKeys))
    case Implies(a, c) => Implies(Replace(a, x, r, inKeys), Replace(c, x, r, inKeys))
  }

  function ReplaceAll(ps: seq<Exp>, x: string, r: Exp, inKeys: bool): (qs: seq<Exp>)
    ensures |qs| == |ps| && forall i | 0 <= i < |ps| :: qs[i] == Replace(ps[i], x, r, inKeys)
  {
    seq(|ps|, i requires 0 <= i < |ps| => Replace(ps[i], x, r, inKeys))
  }

  /** The variables the written replacer cannot reach: those inside keys. */
  function KeyVars(q: Exp): set<string> {
    match q
    case Bin(a, _, b) => KeyVars(a) + KeyVars(b)
    case Not(b) => KeyVars(b)
    case Arr(a, loc) => KeyVars(a) + KeyVars(loc)
    case Aug(a, k, v) => KeyVars(a) + Vars(k) + KeyVars(v)
    case Call(_, ps) => KeyVarsOf(ps)
    case Implies(a, c) => KeyVars(a) + KeyVars(c)
    case _ => {}
  }

  function KeyVarsOf(ps: seq<Exp>): set<string> {
    set i, x | 0 <= i < |ps| && x in KeyVars(ps[i]) :: x
  }

  lemma {:induction false} ReplaceChanges(q: Exp, x: string, r: Exp)
    ensures Replace(q, x, r, true) == q <==> x !in Vars(q) || r == Var(x)
  {
    match q
    case Bin(a, _, b) => ReplaceChanges(a, x, r); ReplaceChanges(b, x, r);
    case Not(b) => ReplaceChanges(b, x, r);
    case Arr(a, loc) => ReplaceChanges(a, x, r); ReplaceChanges(loc, x, r);
    case Aug(a, k, v) => ReplaceChanges(a, x, r); ReplaceChanges(k, x, r); ReplaceChanges(v, x, r);
    case Implies(a, c) => ReplaceChanges(a, x, r); ReplaceChanges(c, x, r);
    case Call(_, ps) =>
      forall i | 0 <= i < |ps| ensures Replace(ps[i], x, r, true) == ps[i] <==> x !in Vars(ps[i]) || r == Var(x) {
        ReplaceChanges(ps[i], x, r);
      }
      var qs := ReplaceAll(ps, x, r, true);
      if qs == ps {
        forall i | 0 <= i < |ps| ensures x !in Vars(ps[i]) || r == Var(x) { assert qs[i] == ps[i]; }
      }
    case _ =>
  }

  /** The written replacer delivers the promised `Q[r/x]` exactly when no key mentions `x`
      (or the replacement is `x` itself). */
  lemma {:induction false} ReplaceMeetsItsPromise(q: Exp, x: string, r: Exp)
    ensures Replace(q, x, r, false) == Replace(q, x, r, true) <==> x !in KeyVars(q) || r == Var(x)
  {
    match q
    case Bin(a, _, b) => ReplaceMeetsItsPromise(a, x, r); ReplaceMeetsItsPromise(b, x, r);
    case Not(b) => ReplaceMeetsItsPromise(b, x, r);
    case Arr(a, loc) => ReplaceMeetsItsPromise(a, x, r); ReplaceMeetsItsPromise(loc, x, r);
    case Aug(a, k, v) => ReplaceMeetsItsPromise(a, x, r); ReplaceChanges(k, x, r); ReplaceMeetsItsPromise(v, x, r);
    case Implies(a, c) => ReplaceMeetsItsPromise(a, x, r); ReplaceMeetsItsPromise(c, x, r);
    case Call(_, ps) =>
      forall i | 0 <= i < |ps|
        ensures Replace(ps[i], x, r, false) == Replace(ps[i], x, r, true) <==> x !in KeyVars(ps[i]) || r == Var(x)
      {
        ReplaceMeetsItsPromise(ps[i], x, r);
      }
      var qs := ReplaceAll(ps, x, r, false);
      var qs' := ReplaceAll(ps, x, r, true);
      if qs == qs' {
        forall i | 0 <= i < |ps| ensures x !in KeyVars(ps[i]) || r == Var(x) { assert qs[i] == qs'[i]; }
      }
    case _ =>
  }

  /** The full substitution means assignment: with stacked augmentations, and with reads and
      writes nested inside indices and keys. */
  lemma {:induction false} ReplaceMeansAssign(q: Exp, x: string, r: Exp, s: State, m: Model)
    ensures Eval(Replace(q, x, r, true), s, m) == Eval(q, s[x := Eval(r, s, m)], m)
  {
    var t := s[x := Eval(r, s, m)];
    match q
    case Bin(a, _, b) => ReplaceMeansAssign(a, x, r, s, m); ReplaceMeansAssign(b, x, r, s, m);
    case Not(b) => ReplaceMeansAssign(b, x, r, s, m);
    case Arr(a, loc) => ReplaceMeansAssign(a, x, r, s, m); ReplaceMeansAssign(loc, x, r, s, m);
    case Aug(a, k, v) =>
      ReplaceMeansAssign(a, x, r, s, m); ReplaceMeansAssign(k, x, r, s, m); ReplaceMeansAssign(v, x, r, s, m);
    case Implies(a, c) => ReplaceMeansAssign(a, x, r, s, m); ReplaceMeansAssign(c, x, r, s, m);
    case Call(f, ps) =>
      var qs := ReplaceAll(ps, x, r, true);
      forall i | 0 <= i < |ps| ensures Eval(qs[i], s, m) == Eval(ps[i], t, m) { ReplaceMeansAssign(ps[i], x, r, s, m); }
      assert EvalAll(qs, s, m) == EvalAll(ps, t, m);
    case _ =>
  }

  /** `q` with `x` called `y` inside the keys of augmented arrays, and nowhere else. */
  function FreezeKeys(q: Exp, x: string, y: string): Exp {
    match q
    case Bin(a, op, b) => Bin(FreezeKeys(a, x, y), op, FreezeKeys(b, x, y))
    case Not(b) => Not(FreezeKeys(b, x, y))
    case Arr(a, loc) => Arr(FreezeKeys(a, x, y), FreezeKeys(loc, x, y))
    case Aug(a, k, v) => Aug(FreezeKeys(a, x, y), Replace(k, x, Var(y), true), FreezeKeys(v, x, y))
    case Call(f, ps) => Call(f, seq(|ps|, i requires 0 <= i < |ps| => FreezeKeys(ps[i], x, y)))
    case Implies(a, c) => Implies(FreezeKeys(a, x, y), FreezeKeys(c, x, y))
    case _ => q
  }

  /** What the written replacer computes, for every formula: keys read the state in front of the
      assignment, and everything else, the values stored under the keys included, the state
      behind it. The old value of `x` is kept under a name `y` that `q` does not mention. */
  lemma {:induction false} KeysReadBefore(q: Exp, x: string, r: Exp, y: string, s: State, m: Model)
    requires y !in Vars(q) && y != x
    ensures Eval(Replace(q, x, r, false), s, m)
      == Eval(FreezeKeys(q, x, y), s[y := Lookup(s, x)][x := Eval(r, s, m)], m)
  {
    var t := s[y := Lookup(s, x)][x := Eval(r, s, m)];
    match q
    case Bin(a, _, b) => KeysReadBefore(a, x, r, y, s, m); KeysReadBefore(b, x, r, y, s, m);
    case Not(b) => KeysReadBefore(b, x, r, y, s, m);
    case Arr(a, loc) => KeysReadBefore(a, x, r, y, s, m); KeysReadBefore(loc, x, r, y, s, m);
    case Aug(a, k, v) =>
      KeysReadBefore(a, x, r, y, s, m); KeysReadBefore(v, x, r, y, s, m);
      FrozenKey(k, x, Eval(r, s, m), y, s, m);
    case Implies(a, c) => KeysReadBefore(a, x, r, y, s, m); KeysReadBefore(c, x, r, y, s, m);
    case Call(f, ps) =>
      var qs := ReplaceAll(ps, x, r, false);
      var fs := seq(|ps|, i requires 0 <= i < |ps| => FreezeKeys(ps[i], x, y));
      forall i | 0 <= i < |ps| ensures Eval(qs[i], s, m) == Eval(fs[i], t, m) {
        KeysReadBefore(ps[i], x, r, y, s, m);
      }
      assert EvalAll(qs, s, m) == EvalAll(fs, t, m);
    case _ =>
  }

  lemma FrozenKey(k: Exp, x: string, w: Value, y: string, s: State, m: Model)
    requires y !in Vars(k) && y != x
    ensures Eval(Replace(k, x, Var(y), true), s[y := Lookup(s, x)][x := w], m) == Eval(k, s, m)
  {
    hide Replace, Vars;
    var t := s[y := Lookup(s, x)][x := w];
    ReplaceMeansAssign(k, x, Var(y), t, m);
    Coincidence(k, t[x := Eval(Var(y), t, m)], s, m);
  }

  // ----- the generator -----

  /** A precondition together with the side conditions, in the order they are appended. */
  datatype Vcs = Vcs(pre: Exp, conds: seq<Exp>)

  function ExitCond(inv: Exp, test: Exp, q: Exp): Exp { Implies(Bin(inv, And, Not(test)), q) }

  function StepCond(inv: Exp, test: Exp, pre: Exp): Exp { Implies(Bin(inv, And, test), pre) }

  /** A map with one entry is not handed on to the loop body (verify.py:101-104). An empty map
      and no map at all behave alike: both make the lookup of any loop raise. */
  function ForBody(invs: map<string, Exp>): map<string, Exp> {
    if |invs| > 1 then invs else map[]
  }

  /** `None` is the exception raised for a loop whose key is missing. */
  function Wp(c: Stmt, q: Exp, invs: map<string, Exp>, inKeys: bool): Option<Vcs> {
    match c
    case Just(_) => Some(Vcs(q, []))
    case AssignVar(x, e) => Some(Vcs(Replace(q, x, e, inKeys), []))
    case AssignArr(a, loc, e) => Some(Vcs(Replace(q, a, Aug(Var(a), loc, e), inKeys), []))
    case Seq(c1, c2) =>
      var v2 :- Wp(c2, q, invs, inKeys);
      var v1 :- Wp(c1, v2.pre, invs, inKeys);
      Some(Vcs(v1.pre, v2.conds + v1.conds))
    case While(_, test, body) =>
      var key := LoopKey(c);
      if key !in invs then None
      else
        var inv := invs[key];
        var v :- Wp(body, inv, ForBody(invs), inKeys);
        Some(Vcs(Implies(True, inv), [ExitCond(inv, test, q)] + v.conds + [StepCond(inv, test, v.pre)]))
  }

  // One unfolding of `Wp` at a time: what the longer proofs below work with.

  lemma WpSeq(c: Stmt, q: Exp, invs: map<string, Exp>, inKeys: bool)
    requires c.Seq?
    ensures
      var v2 := Wp(c.last, q, invs, inKeys);
      Wp(c, q, invs, inKeys) ==
        if v2.None? then None
        else
          var v1 := Wp(c.init, v2.value.pre, invs, inKeys);
          if v1.None? then None else Some(Vcs(v1.value.pre, v2.value.conds + v1.value.conds))
  {
    hide LoopKey, Replace;
  }

  lemma WpLoop(c: Stmt, q: Exp, invs: map<string, Exp>, inKeys: bool)
    requires c.While? && LoopKey(c) in invs
    ensures
      var inv := invs[LoopKey(c)];
      var v := Wp(c.body, inv, ForBody(invs), inKeys);
      Wp(c, q, invs, inKeys) ==
        if v.None? then None
        else
          Some(Vcs(Implies(True, inv),
                   [ExitCond(inv, c.test, q)] + v.value.conds + [StepCond(inv, c.test, v.value.pre)]))
  {
    hide LoopKey, Replace;
  }

  /** The generator object: every recursive call appends to the same list. */
  class WeakestPrecondition {
    var additionalConditions: seq<Exp>

    constructor ()
      ensures additionalConditions == []
    {
      additionalConditions := [];
    }

    method Get(c: Stmt, q: Exp, invs: map<string, Exp>) returns (r: Option<Exp>)
      modifies this
      ensures r.Some? == Wp(c, q, invs, false).Some?
      ensures r.Some? ==> r.value == Wp(c, q, invs, false).value.pre
      ensures r.Some? ==> additionalConditions == old(additionalConditions) + Wp(c, q, invs, false).value.conds
      ensures old(additionalConditions) <= additionalConditions
      decreases c
    {
      hide LoopKey, Replace, ForBody;
      match c
      case Just(_) => r := Some(q);
      case AssignVar(x, e) => r := Some(Replace(q, x, e, false));
      case AssignArr(a, loc, e) => r := Some(Replace(q, a, Aug(Var(a), loc, e), false));
      case Seq(c1, c2) =>
        r := Get(c2, q, invs);
        if r.Some? { r := Get(c1, r.value, invs); }
      case While(_, test, body) =>
        var key := LoopKey(c);
        if key !in invs { return None; }
        var inv := invs[key];
        additionalConditions := additionalConditions + [ExitCond(inv, test, q)];
        var pre := Get(body, inv, ForBody(invs));
        if pre.None? { return None; }
        additionalConditions := additionalConditions + [StepCond(inv, test, pre.value)];
        r := Some(Implies(True, inv));
    }
  }

  // ----- dropping the one-entry map loses nothing -----

  lemma OneEntry(invs: map<string, Exp>, k: string, l: string)
    requires k in invs && l in invs && |invs| <= 1
    ensures k == l
  {
    var rest := invs.Keys - {k};
    assert |rest| == |invs.Keys| - 1;
    assert l !in rest;
  }

  lemma {:induction false} BodyKeepsItsInvariants(c: Stmt, invs: map<string, Exp>)
    requires c.While? && LoopKey(c) in invs
    ensures LoopKeys(c.body) <= invs.Keys <==> LoopKeys(c.body) <= ForBody(invs).Keys
  {
    if LoopKeys(c.body) <= invs.Keys && |invs| <= 1 {
      forall k | k in LoopKeys(c.body) ensures false {
        InnerTextsAreShorter(c, k);
        OneEntry(invs, k, LoopKey(c));
      }
    }
  }

  /** The generator raises exactly when some loop of the program has no invariant. */
  lemma {:induction false} WpDefined(c: Stmt, q: Exp, invs: map<string, Exp>, inKeys: bool)
    ensures Wp(c, q, invs, inKeys).Some? <==> LoopKeys(c) <= invs.Keys
  {
    match c
    case Seq(c1, c2) =>
      WpDefined(c2, q, invs, inKeys);
      if LoopKeys(c2) <= invs.Keys { WpDefined(c1, Wp(c2, q, invs, inKeys).value.pre, invs, inKeys); }
    case While(_, _, body) =>
      if LoopKey(c) in invs {
        BodyKeepsItsInvariants(c, invs);
        WpDefined(body, invs[LoopKey(c)], ForBody(invs), inKeys);
      }
    case _ =>
  }

  /** What is generated depends only on the invariants of the program's own loops, so handing
      the body a reduced map yields the same conditions as handing it the whole map. */
  lemma {:induction false} WpLocal(c: Stmt, q: Exp, invs: map<string, Exp>, invs': map<string, Exp>, inKeys: bool)
    requires LoopKeys(c) <= invs.Keys && LoopKeys(c) <= invs'.Keys
    requires forall k | k in LoopKeys(c) :: invs[k] == invs'[k]
    ensures Wp(c, q, invs, inKeys) == Wp(c, q, invs', inKeys)
  {
    match c
    case Seq(c1, c2) =>
      WpSeq(c, q, invs, inKeys);
      WpSeq(c, q, invs', inKeys);
      hide Wp, LoopKey;
      WpLocal(c2, q, invs, invs', inKeys);
      WpDefined(c2, q, invs, inKeys);
      WpLocal(c1, Wp(c2, q, invs, inKeys).value.pre, invs, invs', inKeys);
    case While(_, _, body) =>
      WpLoop(c, q, invs, inKeys);
      WpLoop(c, q, invs', inKeys);
      hide Wp, LoopKey;
      BodyKeepsItsInvariants(c, invs);
      BodyKeepsItsInvariants(c, invs');
      WpLocal(body, invs[LoopKey(c)], ForBody(invs), ForBody(invs'), inKeys);
    case _ =>
  }

  /** One unfolding of a loop, with the whole map passed to its body. */
  lemma WpWhile(c: Stmt, q: Exp, invs: map<string, Exp>, inKeys: bool)
    requires c.While? && LoopKeys(c) <= invs.Keys
    ensures Wp(c, q, invs, inKeys).Some?
    ensures Wp(c.body, invs[LoopKey(c)], invs, inKeys).Some?
    ensures
      var inv := invs[LoopKey(c)];
      var v := Wp(c.body, inv, invs, inKeys).value;
      Wp(c, q, invs, inKeys).value
        == Vcs(Implies(True, inv), [ExitCond(inv, c.test, q)] + v.conds + [StepCond(inv, c.test, v.pre)])
  {
    WpDefined(c, q, invs, inKeys);
    BodyKeepsItsInvariants(c, invs);
    WpLocal(c.body, invs[LoopKey(c)], ForBody(invs), invs, inKeys);
    WpDefined(c.body, invs[LoopKey(c)], invs, inKeys);
  }

  // ----- the order of the conditions -----

  /** The loops of a program in the order in which conditions are appended for them, and whether it
      is the one for leaving the loop: from the last loop of a block to the first, and for each
      loop its exit, then the loops inside it, then its step. */
  function CondOrder(c: Stmt): seq<(Stmt, bool)> {
    match c
    case Seq(c1, c2) => CondOrder(c2) + CondOrder(c1)
    case While(_, _, body) => [(c, true)] + CondOrder(body) + [(c, false)]
    case _ => []
  }

  /** Condition `cond` is about leaving loop `w`, or about one more iteration of it. */
  predicate IsAbout(cond: Exp, w: Stmt, exit: bool, invs: map<string, Exp>) {
    && w.While? && LoopKey(w) in invs && cond.Implies?
    && cond.ifx == Bin(invs[LoopKey(w)], And, if exit then Not(w.test) else w.test)
  }

  lemma {:induction false} ConditionsInOrder(c: Stmt, q: Exp, invs: map<string, Exp>, inKeys: bool)
    requires Wp(c, q, invs, inKeys).Some?
    ensures var conds, order := Wp(c, q, invs, inKeys).value.conds, CondOrder(c);
      && |conds| == |order|
      && forall i | 0 <= i < |conds| :: IsAbout(conds[i], order[i].0, order[i].1, invs)
  {
    hide LoopKey, Replace, Wp;
    match c
    case Seq(c1, c2) =>
      WpSeq(c, q, invs, inKeys);
      WpDefined(c, q, invs, inKeys);
      WpDefined(c2, q, invs, inKeys);
      ConditionsInOrder(c2, q, invs, inKeys);
      ConditionsInOrder(c1, Wp(c2, q, invs, inKeys).value.pre, invs, inKeys);
    case While(_, _, body) =>
      WpDefined(c, q, invs, inKeys);
      WpWhile(c, q, invs, inKeys);
      ConditionsInOrder(body, invs[LoopKey(c)], invs, inKeys);
    case _ => NoConditions(c, q, invs, inKeys);
  }

  lemma NoConditions(c: Stmt, q: Exp, invs: map<string, Exp>, inKeys: bool)
    requires !c.Seq? && !c.While?
    ensures Wp(c, q, invs, inKeys).Some? && Wp(c, q, invs, inKeys).value.conds == []
  {
    hide Replace;
  }
}
