/** The generated conditions as conditions on states: loops are cut at their invariants, and what
    remains are the rules of Hoare logic (backend/verify.py:41-118). */
module Hoare {
  import opened StencilIr
  import opened Interpret
  import opened Verify
  import opened VerifyTheorems

  /** What the invariants say, by the key of their loop. */
  type Reading = (string, State) -> bool

  /** What must hold in front of `c` so that `q` holds behind it. */
  ghost predicate Pre(c: Stmt, q: State -> bool, inv: Reading, m: Model, s: State)
    decreases c
  {
    match c
    case Just(_) => q(s)
    case AssignVar(x, e) => q(s[x := Eval(e, s, m)])
    case AssignArr(a, loc, e) => q(s[a := Store(Lookup(s, a), Eval(loc, s, m), Eval(e, s, m))])
    case Seq(c1, c2) => Pre(c1, t => Pre(c2, q, inv, m, t), inv, m, s)
    case While(_, _, _) => inv(LoopKey(c), s)
  }

  /** The conditions on the loops of `c`. */
  ghost predicate Conds(c: Stmt, q: State -> bool, inv: Reading, admissible: State -> bool, m: Model)
    decreases c
  {
    match c
    case Seq(c1, c2) => Conds(c2, q, inv, admissible, m) && Conds(c1, t => Pre(c2, q, inv, m, t), inv, admissible, m)
    case While(_, test, body) =>
      var key := LoopKey(c);
      && (forall s | admissible(s) && inv(key, s) && !Holds(test, s, m) :: q(s))
      && (forall s | admissible(s) && inv(key, s) && Holds(test, s, m) :: Pre(body, t => inv(key, t), inv, m, s))
      && Conds(body, t => inv(key, t), inv, admissible, m)
    case _ => true
  }

  /** `invs` are read as `inv` says. */
  ghost predicate ReadAs(c: Stmt, invs: map<string, Exp>, inv: Reading, admissible: State -> bool, m: Model) {
    && LoopKeys(c) <= invs.Keys
    && forall key, s | key in LoopKeys(c) && admissible(s) :: Holds(invs[key], s, m) <==> inv(key, s)
  }

  /** The generator's formula and conditions mean exactly these. */
  lemma {:induction false} ConditionsMean(c: Stmt, q: Exp, post: State -> bool, invs: map<string, Exp>, inKeys: bool,
                                          keys: set<string>,
                                          inv: Reading, admissible: State -> bool, m: Model)
    requires ReadAs(c, invs, inv, admissible, m) && Substitutable(c, q, invs, inKeys, keys)
    requires Closed(admissible, Assigned(c))
    requires forall s | admissible(s) :: Holds(q, s, m) <==> post(s)
    ensures Wp(c, q, invs, inKeys).Some?
    ensures forall s | admissible(s) :: Holds(Wp(c, q, invs, inKeys).value.pre, s, m) <==> Pre(c, post, inv, m, s)
    ensures AllValid(Wp(c, q, invs, inKeys).value.conds, admissible, m) <==> Conds(c, post, inv, admissible, m)
    decreases c, 1
  {
    hide Wp, LoopKey, Substitutable, Holds;
    WpDefined(c, q, invs, inKeys);
    match c
    case Seq(_, _) => SeqMeans(c, q, post, invs, inKeys, keys, inv, admissible, m);
    case While(_, _, _) => WhileMeans(c, q, post, invs, inKeys, keys, inv, admissible, m);
    case _ => LeafMeans(c, q, post, invs, inKeys, keys, inv, admissible, m);
  }

  lemma LeafMeans(c: Stmt, q: Exp, post: State -> bool, invs: map<string, Exp>, inKeys: bool, keys: set<string>,
                  inv: Reading, admissible: State -> bool, m: Model)
    requires !c.Seq? && !c.While? && Substitutable(c, q, invs, inKeys, keys) && Closed(admissible, Assigned(c))
    requires forall s | admissible(s) :: Holds(q, s, m) <==> post(s)
    ensures Wp(c, q, invs, inKeys).Some? && Wp(c, q, invs, inKeys).value.conds == []
    ensures forall s | admissible(s) :: Holds(Wp(c, q, invs, inKeys).value.pre, s, m) <==> Pre(c, post, inv, m, s)
  {
    hide Replace, Substitutable, Eval;
    if !c.Just? {
      forall s | admissible(s) ensures Holds(Wp(c, q, invs, inKeys).value.pre, s, m) <==> Pre(c, post, inv, m, s) {
        AssignExact(c, q, invs, inKeys, keys, s, 0, m);
        RunStaysAdmissible(c, admissible, m, s, 0);
      }
    }
  }

  lemma {:induction false} SeqMeans(c: Stmt, q: Exp, post: State -> bool, invs: map<string, Exp>, inKeys: bool,
                                    keys: set<string>,
                                    inv: Reading, admissible: State -> bool, m: Model)
    requires c.Seq?
    requires ReadAs(c, invs, inv, admissible, m) && Substitutable(c, q, invs, inKeys, keys)
    requires Closed(admissible, Assigned(c))
    requires forall s | admissible(s) :: Holds(q, s, m) <==> post(s)
    ensures Wp(c, q, invs, inKeys).Some?
    ensures forall s | admissible(s) :: Holds(Wp(c, q, invs, inKeys).value.pre, s, m) <==> Pre(c, post, inv, m, s)
    ensures AllValid(Wp(c, q, invs, inKeys).value.conds, admissible, m) <==> Conds(c, post, inv, admissible, m)
    decreases c, 0
  {
    hide Wp, LoopKey, Substitutable, Holds;
    var Seq(c1, c2) := c;
    WpDefined(c, q, invs, inKeys);
    SubstitutableSeq(c, q, invs, inKeys, keys);
    WpSeq(c, q, invs, inKeys);
    var mid := t => Pre(c2, post, inv, m, t);
    ConditionsMean(c2, q, post, invs, inKeys, keys, inv, admissible, m);
    var v2 := Wp(c2, q, invs, inKeys).value;
    ConditionsMean(c1, v2.pre, mid, invs, inKeys, PendingKeys(c2, keys), inv, admissible, m);
    ValidSplit(v2.conds, Wp(c1, v2.pre, invs, inKeys).value.conds, admissible, m);
  }

  lemma {:induction false} WhileMeans(c: Stmt, q: Exp, post: State -> bool, invs: map<string, Exp>, inKeys: bool,
                                      keys: set<string>,
                                      inv: Reading, admissible: State -> bool, m: Model)
    requires c.While?
    requires ReadAs(c, invs, inv, admissible, m) && Substitutable(c, q, invs, inKeys, keys)
    requires Closed(admissible, Assigned(c))
    requires forall s | admissible(s) :: Holds(q, s, m) <==> post(s)
    ensures Wp(c, q, invs, inKeys).Some?
    ensures forall s | admissible(s) :: Holds(Wp(c, q, invs, inKeys).value.pre, s, m) <==> Pre(c, post, inv, m, s)
    ensures AllValid(Wp(c, q, invs, inKeys).value.conds, admissible, m) <==> Conds(c, post, inv, admissible, m)
    decreases c, 0
  {
    hide Wp, LoopKey, Substitutable, Holds;
    var key, i := LoopKey(c), invs[LoopKey(c)];
    var again := t => inv(key, t);
    WpWhile(c, q, invs, inKeys);
    SubstitutableLoop(c, q, invs, inKeys, keys);
    ConditionsMean(c.body, i, again, invs, inKeys, {}, inv, admissible, m);
    var v := Wp(c.body, i, invs, inKeys).value;
    WhileValid(i, c.test, q, v, admissible, m);
    forall s
      ensures Holds(ExitCond(i, c.test, q), s, m) <==> (Holds(i, s, m) && !Holds(c.test, s, m) ==> Holds(q, s, m))
      ensures Holds(StepCond(i, c.test, v.pre), s, m)
        <==> (Holds(i, s, m) && Holds(c.test, s, m) ==> Holds(v.pre, s, m))
      ensures Holds(Implies(True, i), s, m) <==> Holds(i, s, m)
    {
      CondsMean(i, c.test, q, s, m);
      CondsMean(i, c.test, v.pre, s, m);
    }
  }

  // ----- rules -----

  /** From every admissible state in `p`, `c` leads to `q`, relative to the invariants. */
  ghost predicate Triple(p: State -> bool, c: Stmt, q: State -> bool, inv: Reading, admissible: State -> bool,
                         m: Model) {
    (forall s | admissible(s) && p(s) :: Pre(c, q, inv, m, s)) && Conds(c, q, inv, admissible, m)
  }

  ghost predicate Entails(p: State -> bool, q: State -> bool, admissible: State -> bool) {
    forall s | admissible(s) && p(s) :: q(s)
  }

  lemma {:induction false} Weaken(c: Stmt, q: State -> bool, r: State -> bool, inv: Reading, admissible: State -> bool,
                                  m: Model)
    requires Entails(q, r, admissible) && Closed(admissible, Assigned(c))
    ensures forall s | admissible(s) && Pre(c, q, inv, m, s) :: Pre(c, r, inv, m, s)
    ensures Conds(c, q, inv, admissible, m) ==> Conds(c, r, inv, admissible, m)
  {
    hide LoopKey, Eval;
    match c
    case Seq(c1, c2) =>
      Weaken(c2, q, r, inv, admissible, m);
      Weaken(c1, t => Pre(c2, q, inv, m, t), t => Pre(c2, r, inv, m, t), inv, admissible, m);
    case _ =>
  }

  lemma SeqRule(p: State -> bool, c1: Stmt, q: State -> bool, c2: Stmt, r: State -> bool, inv: Reading,
                admissible: State -> bool, m: Model)
    requires Triple(p, c1, q, inv, admissible, m) && Triple(q, c2, r, inv, admissible, m)
    requires Closed(admissible, Assigned(c1))
    ensures Triple(p, Seq(c1, c2), r, inv, admissible, m)
  {
    hide LoopKey, Eval;
    Weaken(c1, q, t => Pre(c2, r, inv, m, t), inv, admissible, m);
  }

  lemma Consequence(p: State -> bool, p': State -> bool, c: Stmt, q: State -> bool, q': State -> bool, inv: Reading,
                    admissible: State -> bool, m: Model)
    requires Entails(p, p', admissible) && Triple(p', c, q', inv, admissible, m) && Entails(q', q, admissible)
    requires Closed(admissible, Assigned(c))
    ensures Triple(p, c, q, inv, admissible, m)
  {
    hide LoopKey, Eval, Pre, Conds;
    Weaken(c, q', q, inv, admissible, m);
  }

  lemma WhileRule(c: Stmt, q: State -> bool, inv: Reading, admissible: State -> bool, m: Model)
    requires c.While?
    requires forall s | admissible(s) && inv(LoopKey(c), s) && !Holds(c.test, s, m) :: q(s)
    requires Triple(s => inv(LoopKey(c), s) && Holds(c.test, s, m), c.body, t => inv(LoopKey(c), t), inv, admissible, m)
    ensures Triple(s => inv(LoopKey(c), s), c, q, inv, admissible, m)
  {
    hide LoopKey, Eval;
  }

  /** The rules are sound for runs. */
  lemma {:induction false} TripleSound(c: Stmt, q: State -> bool, inv: Reading, admissible: State -> bool, m: Model,
                                       s: State, n: nat)
    requires Pre(c, q, inv, m, s) && Conds(c, q, inv, admissible, m) && Closed(admissible, Assigned(c)) && admissible(s)
    requires Run(c, s, n, m).Some?
    ensures q(Run(c, s, n, m).value)
    decreases n, c
  {
    hide LoopKey, Eval;
    match c
    case Seq(c1, c2) =>
      TripleSound(c1, t => Pre(c2, q, inv, m, t), inv, admissible, m, s, n);
      RunStaysAdmissible(c1, admissible, m, s, n);
      TripleSound(c2, q, inv, admissible, m, Run(c1, s, n, m).value, n);
    case While(_, test, body) =>
      if Holds(test, s, m) {
        TripleSound(body, t => inv(LoopKey(c), t), inv, admissible, m, s, n - 1);
        RunStaysAdmissible(body, admissible, m, s, n - 1);
        TripleSound(c, q, inv, admissible, m, Run(body, s, n - 1, m).value, n - 1);
      }
    case _ =>
  }
}
