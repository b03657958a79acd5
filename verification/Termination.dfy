/** Loops of the shape the generator assumes (generate_sketch.py:64-72) always end. */
module Termination {
  import opened StencilIr
  import opened Interpret
  import opened VerifyTheorems

  function Incr(v: string): Stmt { AssignVar(v, Bin(Var(v), Add, Num(1))) }

  /** Every loop tests `v < bound`, ends its body with `v = v + 1`, and its body assigns
      neither `v` (elsewhere) nor a variable of the bound. */
  predicate Counting(c: Stmt) {
    match c
    case Seq(c1, c2) => Counting(c1) && Counting(c2)
    case While(v, test, body) =>
      && test.Bin? && test.op.Lt? && test.left == Var(v)
      && body.Seq? && body.last == Incr(v)
      && v !in Assigned(body.init) && Vars(test.right) !! Assigned(body)
      && Counting(body.init)
    case _ => true
  }

  lemma {:induction false} RunFrame(c: Stmt, s: State, n: nat, m: Model, x: string)
    requires x !in Assigned(c) && Run(c, s, n, m).Some?
    ensures Lookup(Run(c, s, n, m).value, x) == Lookup(s, x)
    decreases n, c
  {
    match c
    case Seq(c1, c2) =>
      RunFrame(c1, s, n, m, x);
      RunFrame(c2, Run(c1, s, n, m).value, n, m, x);
    case While(_, test, body) =>
      if Holds(test, s, m) {
        RunFrame(body, s, n - 1, m, x);
        RunFrame(c, Run(body, s, n - 1, m).value, n - 1, m, x);
      }
    case _ =>
  }

  lemma RunFrameExp(c: Stmt, s: State, n: nat, m: Model, e: Exp)
    requires Vars(e) !! Assigned(c) && Run(c, s, n, m).Some?
    ensures Eval(e, Run(c, s, n, m).value, m) == Eval(e, s, m)
  {
    forall x | x in Vars(e) ensures Lookup(Run(c, s, n, m).value, x) == Lookup(s, x) { RunFrame(c, s, n, m, x); }
    Coincidence(e, Run(c, s, n, m).value, s, m);
  }

  /** Iterations a loop still has to do. */
  function Remaining(c: Stmt, s: State, m: Model): nat {
    if c.While? && c.test.Bin? && Eval(c.test.left, s, m).IntV? && Eval(c.test.right, s, m).IntV?
       && Eval(c.test.left, s, m).i < Eval(c.test.right, s, m).i
    then Eval(c.test.right, s, m).i - Eval(c.test.left, s, m).i
    else 0
  }

  lemma CountingTest(c: Stmt, s: State, m: Model)
    requires Standard(m) && c.While? && Counting(c)
    ensures Holds(c.test, s, m) <==>
      && Lookup(s, c.iterVar).IntV? && Eval(c.test.right, s, m).IntV?
      && Lookup(s, c.iterVar).i < Eval(c.test.right, s, m).i
  {
    assert Eval(c.test, s, m) == m.bin(Lt, Lookup(s, c.iterVar), Eval(c.test.right, s, m));
  }

  lemma IncrRun(v: string, s: State, n: nat, m: Model)
    requires Standard(m) && Lookup(s, v).IntV?
    ensures Run(Incr(v), s, n, m) == Some(s[v := IntV(Lookup(s, v).i + 1)])
  {
    assert Eval(Incr(v).rval, s, m) == m.bin(Add, Lookup(s, v), IntV(1));
  }

  lemma OneIteration(c: Stmt, s: State, n: nat, m: Model)
    requires Standard(m) && c.While? && Counting(c) && Holds(c.test, s, m) && Run(c.body.init, s, n, m).Some?
    ensures Run(c.body, s, n, m).Some? && Remaining(c, Run(c.body, s, n, m).value, m) < Remaining(c, s, m)
  {
    CountingTest(c, s, m);
    RunFrame(c.body.init, s, n, m, c.iterVar);
    IncrRun(c.iterVar, Run(c.body.init, s, n, m).value, n, m);
    RunFrameExp(c.body, s, n, m, c.test.right);
  }

  function Max(a: nat, b: nat): nat { if a <= b then b else a }

  lemma SeqEnds(c1: Stmt, c2: Stmt, s: State, n1: nat, n2: nat, m: Model)
    requires Run(c1, s, n1, m).Some? && Run(c2, Run(c1, s, n1, m).value, n2, m).Some?
    ensures Run(Seq(c1, c2), s, Max(n1, n2), m).Some?
  {
    RunMonotone(c1, s, n1, Max(n1, n2), m);
    RunMonotone(c2, Run(c1, s, n1, m).value, n2, Max(n1, n2), m);
  }

  lemma LoopEnds(c: Stmt, s: State, n1: nat, n2: nat, m: Model)
    requires c.While? && Holds(c.test, s, m)
    requires Run(c.body, s, n1, m).Some? && Run(c, Run(c.body, s, n1, m).value, n2, m).Some?
    ensures Run(c, s, Max(n1, n2) + 1, m).Some?
  {
    RunMonotone(c.body, s, n1, Max(n1, n2), m);
    RunMonotone(c, Run(c.body, s, n1, m).value, n2, Max(n1, n2), m);
  }

  /** Every run of a counting program ends; the measure is lexicographic, loops outside in. */
  lemma {:induction false} CountingTerminates(c: Stmt, s: State, m: Model) returns (n: nat)
    requires Standard(m) && Counting(c)
    ensures Run(c, s, n, m).Some?
    decreases c, Remaining(c, s, m)
  {
    n := 0;
    match c
    case Seq(c1, c2) =>
      var n1 := CountingTerminates(c1, s, m);
      var n2 := CountingTerminates(c2, Run(c1, s, n1, m).value, m);
      SeqEnds(c1, c2, s, n1, n2, m);
      n := Max(n1, n2);
    case While(_, test, body) =>
      if Holds(test, s, m) {
        var n1 := CountingTerminates(body.init, s, m);
        OneIteration(c, s, n1, m);
        var n2 := CountingTerminates(c, Run(body, s, n1, m).value, m);
        LoopEnds(c, s, n1, n2, m);
        n := Max(n1, n2) + 1;
      }
    case _ =>
  }
}
