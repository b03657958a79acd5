/** Meaning of the IR (backend/interpret.py): values, formulas and runs.
    Value arithmetic is left open: `Model.bin` may be any function, so every theorem that does
    not ask for `Standard` holds for every arithmetic. */
module Interpret {
  import opened StencilIr

  datatype Value =
    | IntV(i: int)
    | BoolV(b: bool)
    | NameV(name: string)
    | ArrV(cells: map<int, Value>)
    | Undef

  /** The interpreter's one dictionary of scalars and arrays. */
  type State = map<string, Value>

  datatype Model = Model(bin: (Op, Value, Value) -> Value, calls: (string, seq<Value>) -> bool)

  /** A name that is not in the dictionary denotes itself (interpret.py:84-88). */
  function Lookup(s: State, x: string): Value {
    if x in s then s[x] else NameV(x)
  }

  function Select(a: Value, i: Value): Value {
    if a.ArrV? && i.IntV? && i.i in a.cells then a.cells[i.i] else Undef
  }

  /** Arrays are total: a cell never written is `Undef`, and a name without an array is an
      array nobody has written yet. */
  function Store(a: Value, i: Value, v: Value): Value {
    if i.IntV? then ArrV((if a.ArrV? then a.cells else map[])[i.i := v]) else a
  }

  predicate Truthy(v: Value) { v == BoolV(true) }

  function Eval(e: Exp, s: State, m: Model): Value {
    match e
    case True => BoolV(true)
    case Var(x) => Lookup(s, x)
    case Num(i) => IntV(i)
    case Bin(l, op, r) =>
      if op.And? then BoolV(Truthy(Eval(l, s, m)) && Truthy(Eval(r, s, m)))
      else m.bin(op, Eval(l, s, m), Eval(r, s, m))
    case Not(b) => BoolV(!Truthy(Eval(b, s, m)))
    case Arr(a, loc) => Select(Eval(a, s, m), Eval(loc, s, m))
    case Aug(a, k, v) => Store(Eval(a, s, m), Eval(k, s, m), Eval(v, s, m))
    case Call(f, ps) => BoolV(m.calls(f, EvalAll(ps, s, m)))
    case Implies(a, c) => BoolV(Truthy(Eval(a, s, m)) ==> Truthy(Eval(c, s, m)))
  }

  function EvalAll(ps: seq<Exp>, s: State, m: Model): (r: seq<Value>)
    ensures |r| == |ps| && forall i | 0 <= i < |ps| :: r[i] == Eval(ps[i], s, m)
  {
    seq(|ps|, i requires 0 <= i < |ps| => Eval(ps[i], s, m))
  }

  predicate Holds(e: Exp, s: State, m: Model) { Truthy(Eval(e, s, m)) }

  lemma EvalNot(e: Exp, s: State, m: Model)
    ensures Holds(Not(e), s, m) <==> !Holds(e, s, m)
  {
  }

  lemma EvalAnd(a: Exp, b: Exp, s: State, m: Model)
    ensures Holds(Bin(a, And, b), s, m) <==> Holds(a, s, m) && Holds(b, s, m)
  {
  }

  lemma EvalImplies(a: Exp, c: Exp, s: State, m: Model)
    ensures Holds(Implies(a, c), s, m) <==> (Holds(a, s, m) ==> Holds(c, s, m))
    ensures Holds(True, s, m)
  {
  }

  /** Only the variables an expression mentions matter to it. */
  lemma {:induction false} Coincidence(e: Exp, s: State, t: State, m: Model)
    requires forall x | x in Vars(e) :: Lookup(s, x) == Lookup(t, x)
    ensures Eval(e, s, m) == Eval(e, t, m)
  {
    match e
    case Bin(l, _, r) => Coincidence(l, s, t, m); Coincidence(r, s, t, m);
    case Not(b) => Coincidence(b, s, t, m);
    case Arr(a, loc) => Coincidence(a, s, t, m); Coincidence(loc, s, t, m);
    case Aug(a, k, v) => Coincidence(a, s, t, m); Coincidence(k, s, t, m); Coincidence(v, s, t, m);
    case Implies(a, c) => Coincidence(a, s, t, m); Coincidence(c, s, t, m);
    case Call(f, ps) =>
      forall i | 0 <= i < |ps| ensures Eval(ps[i], s, m) == Eval(ps[i], t, m) {
        forall x | x in Vars(ps[i]) ensures Lookup(s, x) == Lookup(t, x) { assert x in Vars(e); }
        Coincidence(ps[i], s, t, m);
      }
      assert EvalAll(ps, s, m) == EvalAll(ps, t, m);
    case _ =>
  }

  /** Program expressions cannot see how calls are interpreted. */
  lemma PlainIgnoresCalls(e: Exp, s: State, m: Model, m': Model)
    requires Plain(e) && m.bin == m'.bin
    ensures Eval(e, s, m) == Eval(e, s, m')
  {
  }

  // ----- runs -----

  /** One run, allowed at most `fuel` iterations of each loop; `None` when it needs more. */
  function Run(c: Stmt, s: State, fuel: nat, m: Model): Option<State>
    decreases fuel, c
  {
    match c
    case Just(_) => Some(s)
    case AssignVar(x, e) => Some(s[x := Eval(e, s, m)])
    case AssignArr(a, loc, e) => Some(s[a := Store(Lookup(s, a), Eval(loc, s, m), Eval(e, s, m))])
    case Seq(c1, c2) =>
      var t :- Run(c1, s, fuel, m);
      Run(c2, t, fuel, m)
    case While(_, test, body) =>
      if !Holds(test, s, m) then Some(s)
      else if fuel == 0 then None
      else
        var t :- Run(body, s, fuel - 1, m);
        Run(c, t, fuel - 1, m)
  }

  /** More fuel changes nothing once the run has ended. */
  lemma {:induction false} RunMonotone(c: Stmt, s: State, n: nat, k: nat, m: Model)
    requires n <= k && Run(c, s, n, m).Some?
    ensures Run(c, s, k, m) == Run(c, s, n, m)
    decreases n, c
  {
    match c
    case Seq(c1, c2) =>
      RunMonotone(c1, s, n, k, m);
      RunMonotone(c2, Run(c1, s, n, m).value, n, k, m);
    case While(_, test, body) =>
      if Holds(test, s, m) {
        RunMonotone(body, s, n - 1, k - 1, m);
        RunMonotone(c, Run(body, s, n - 1, m).value, n - 1, k - 1, m);
      }
    case _ =>
  }

  /** The visitor of interpret.py: the state is one dictionary, updated in place. */
  class Interpreter {
    var state: State
    const m: Model

    constructor (s: State, m: Model)
      ensures state == s && this.m == m
    {
      state := s;
      this.m := m;
    }

    /** False when the run needs more than `fuel`; otherwise the dictionary holds the final state. */
    method Visit(c: Stmt, fuel: nat) returns (ended: bool)
      modifies this
      ensures ended == Run(c, old(state), fuel, m).Some?
      ensures ended ==> state == Run(c, old(state), fuel, m).value
      decreases fuel, c
    {
      ended := true;
      match c
      case Just(_) =>
      case AssignVar(x, e) =>
        state := state[x := Eval(e, state, m)];
      case AssignArr(a, loc, e) =>
        state := state[a := Store(Lookup(state, a), Eval(loc, state, m), Eval(e, state, m))];
      case Seq(c1, c2) =>
        ended := Visit(c1, fuel);
        if ended { ended := Visit(c2, fuel); }
      case While(_, test, body) =>
        var left: nat := fuel;
        while Holds(test, state, m)
          invariant left <= fuel && Run(c, old(state), fuel, m) == Run(c, state, left, m)
          decreases left
        {
          if left == 0 { return false; }
          left := left - 1;
          ended := Visit(body, left);
          if !ended { return; }
        }
        ended := true;
    }
  }
}
