/** The interpreter as the generators use it: scalars are numbers, array cells are symbols
    (backend/interpret.py:29-45, 84-122). */
module Symbolic {
  import opened StencilIr
  import opened Interpret

  /** A symbolic value; `Cell(a, i)` is the initial content of one array cell. */
  datatype Sym =
    | IntS(i: int)
    | BoolS(b: bool)
    | NameS(name: string)
    | Cell(a: string, at: int)
    | OpS(l: Sym, op: Op, r: Sym)
    | UnwrittenS

  datatype SymVal = Scal(e: Sym) | SArr(cells: map<int, Sym>)

  type SymState = map<string, SymVal>

  /** What the array cells hold. */
  type Valuation = (string, int) -> Value

  function Mean(e: Sym, val: Valuation, m: Model): Value {
    match e
    case IntS(i) => IntV(i)
    case BoolS(b) => BoolV(b)
    case NameS(x) => NameV(x)
    case Cell(a, i) => val(a, i)
    case OpS(l, op, r) => m.bin(op, Mean(l, val, m), Mean(r, val, m))
    case UnwrittenS => Undef
  }

  function MeanVal(v: SymVal, val: Valuation, m: Model): Value {
    match v
    case Scal(e) => Mean(e, val, m)
    case SArr(cells) => ArrV(map i | i in cells :: Mean(cells[i], val, m))
  }

  function MeanState(s: SymState, val: Valuation, m: Model): State {
    map x | x in s :: MeanVal(s[x], val, m)
  }

  /** The computer algebra system: any simplifier that keeps the meaning. */
  ghost predicate Simplifier(simplify: Sym -> Sym, m: Model) {
    forall e, val :: Mean(simplify(e), val, m) == Mean(e, val, m)
  }

  predicate Folded(op: Op) { op.Add? || op.Sub? || op.Mul? }

  /** Sums, differences and products of numbers come out as numbers. */
  ghost predicate FoldsNumbers(simplify: Sym -> Sym) {
    forall l: Sym, op: Op, r: Sym :: Folded(op) && l.IntS? && r.IntS? ==> simplify(OpS(l, op, r)).IntS?
  }

  // ----- symbolic runs -----

  function SymBin(l: Sym, op: Op, r: Sym, simplify: Sym -> Sym): Option<Sym> {
    if op.And? || op.Gt? || op.Le? || op.Ge? || op.Eq? then None
    else if !op.Lt? then Some(simplify(OpS(l, op, r)))
    else if l.IntS? && r.IntS? then Some(BoolS(l.i < r.i))
    else Some(OpS(l, op, r))
  }

  /** `None` where the interpreter raises: another comparison than `<`, an index that is not a
      number, something that is not an array where one is needed, or an array as a scalar. */
  function SymEval(e: Exp, s: SymState, simplify: Sym -> Sym): Option<Sym> {
    match e
    case True => Some(BoolS(true))
    case Var(x) => if x !in s then Some(NameS(x)) else if s[x].Scal? then Some(s[x].e) else None
    case Num(i) => Some(IntS(i))
    case Bin(left, op, right) =>
      var l := SymEval(left, s, simplify);
      var r := SymEval(right, s, simplify);
      if l.None? || r.None? then None else SymBin(l.value, op, r.value, simplify)
    case Arr(a, loc) =>
      var i :- SymEval(loc, s, simplify);
      if a.Var? && a.name in s && s[a.name].SArr? && i.IntS? then
        Some(if i.i in s[a.name].cells then s[a.name].cells[i.i] else UnwrittenS)
      else None
    case _ => None
  }

  /** The expressions the interpreter visits on the way: not the name of an array that is read. */
  function Visited(e: Exp): set<Exp> {
    match e
    case Bin(l, _, r) => {e} + Visited(l) + Visited(r)
    case Arr(_, loc) => {e} + Visited(loc)
    case _ => {e}
  }

  /** Where the interpreter itself raises. */
  predicate Raises(e: Exp, s: SymState, simplify: Sym -> Sym) {
    match e
    case True => false
    case Num(_) => false
    case Var(x) => x in s && s[x].SArr?
    case Bin(_, op, _) => op.And? || op.Gt? || op.Le? || op.Ge? || op.Eq?
    case Arr(a, loc) =>
      || !(a.Var? && a.name in s && s[a.name].SArr?)
      || (SymEval(loc, s, simplify).Some? && !SymEval(loc, s, simplify).value.IntS?)
    case _ => true
  }

  ghost predicate SomeRaises(e: Exp, s: SymState, simplify: Sym -> Sym) {
    exists p | p in Visited(e) :: Raises(p, s, simplify)
  }

  lemma SomeUnfold(e: Exp, s: SymState, simplify: Sym -> Sym)
    ensures SomeRaises(e, s, simplify) <==>
      || Raises(e, s, simplify)
      || (e.Bin? && (SomeRaises(e.left, s, simplify) || SomeRaises(e.right, s, simplify)))
      || (e.Arr? && SomeRaises(e.loc, s, simplify))
  {
    hide Raises;
    assert e in Visited(e);
    if e.Bin? {
      if p :| (p in Visited(e.left) || p in Visited(e.right)) && Raises(p, s, simplify) { assert p in Visited(e); }
    } else if e.Arr? {
      if p :| p in Visited(e.loc) && Raises(p, s, simplify) { assert p in Visited(e); }
    }
  }

  /** An expression raises exactly when one of those visited does. */
  lemma {:induction false} RaisesIff(e: Exp, s: SymState, simplify: Sym -> Sym)
    ensures SymEval(e, s, simplify).None? <==> SomeRaises(e, s, simplify)
  {
    hide SomeRaises;
    SomeUnfold(e, s, simplify);
    match e
    case Bin(l, _, r) =>
      RaisesIff(l, s, simplify);
      RaisesIff(r, s, simplify);
    case Arr(_, loc) => RaisesIff(loc, s, simplify);
    case _ =>
  }

  datatype SymResult = Done(state: SymState, tests: seq<bool>) | OutOfFuel | Raised

  function SymAssignArr(s: SymState, a: string, at: Option<Sym>, v: Option<Sym>): Option<SymState> {
    if v.Some? && at.Some? && at.value.IntS? && a in s && s[a].SArr? then
      Some(s[a := SArr(s[a].cells[at.value.i := v.value])])
    else None
  }

  /** A symbolic run and the outcomes of its loop tests; a loop whose test does not come out as
      true or false raises. */
  function SymRun(c: Stmt, s: SymState, fuel: nat, simplify: Sym -> Sym): SymResult
    decreases fuel, c
  {
    match c
    case Just(_) => Done(s, [])
    case AssignVar(x, e) =>
      var v := SymEval(e, s, simplify);
      if v.Some? then Done(s[x := Scal(v.value)], []) else Raised
    case AssignArr(a, loc, e) =>
      var t := SymAssignArr(s, a, SymEval(loc, s, simplify), SymEval(e, s, simplify));
      if t.Some? then Done(t.value, []) else Raised
    case Seq(c1, c2) =>
      var r1 := SymRun(c1, s, fuel, simplify);
      if r1.Done? then Behind(r1.tests, SymRun(c2, r1.state, fuel, simplify)) else r1
    case While(_, test, body) =>
      var b := SymEval(test, s, simplify);
      if b.None? || !b.value.BoolS? then Raised
      else if !b.value.b then Done(s, [false])
      else if fuel == 0 then OutOfFuel
      else
        var r1 := SymRun(body, s, fuel - 1, simplify);
        if r1.Done? then Behind([true] + r1.tests, SymRun(c, r1.state, fuel - 1, simplify)) else r1
  }

  function Behind(tests: seq<bool>, r: SymResult): SymResult {
    if r.Done? then Done(r.state, tests + r.tests) else r
  }

  lemma BehindTwice(a: seq<bool>, b: seq<bool>, r: SymResult)
    ensures Behind(a, Behind(b, r)) == Behind(a + b, r)
    ensures Behind(a, r).Done? <==> r.Done?
    ensures r.Done? ==> Behind(a, r) == Done(r.state, a + r.tests)
  {
    if r.Done? { assert a + (b + r.tests) == a + b + r.tests; }
  }

  lemma SymSeq(c: Stmt, s: SymState, fuel: nat, simplify: Sym -> Sym)
    requires c.Seq?
    ensures SymRun(c, s, fuel, simplify) ==
      var r1 := SymRun(c.init, s, fuel, simplify);
      if r1.Done? then Behind(r1.tests, SymRun(c.last, r1.state, fuel, simplify)) else r1
  {
    hide SymEval, Behind;
  }

  lemma SymWhile(c: Stmt, s: SymState, fuel: nat, simplify: Sym -> Sym)
    requires c.While?
    ensures SymRun(c, s, fuel, simplify) ==
      var b := SymEval(c.test, s, simplify);
      if b.None? || !b.value.BoolS? then Raised
      else if !b.value.b then Done(s, [false])
      else if fuel == 0 then OutOfFuel
      else
        var r1 := SymRun(c.body, s, fuel - 1, simplify);
        if r1.Done? then Behind([true] + r1.tests, SymRun(c, r1.state, fuel - 1, simplify)) else r1
  {
    hide SymEval, Behind;
  }

  /** Statements without a body. */
  lemma SymLeaf(c: Stmt, s: SymState, fuel: nat, simplify: Sym -> Sym, tests: seq<bool>)
    requires !c.Seq? && !c.While?
    ensures var t :=
        if c.Just? then Some(s)
        else if c.AssignVar? then
          (var v := SymEval(c.rval, s, simplify);
           if v.Some? then Some(s[c.x := Scal(v.value)]) else None)
        else SymAssignArr(s, c.a, SymEval(c.loc, s, simplify), SymEval(c.rval, s, simplify));
      var r := SymRun(c, s, fuel, simplify);
      if t.Some? then r.Done? && Behind(tests, r) == Done(t.value, tests) else r == Raised
  {
    hide SymEval, SymAssignArr;
  }

  /** The outcomes of the loop tests of a concrete run. */
  function Tests(c: Stmt, s: State, fuel: nat, m: Model): seq<bool>
    requires Run(c, s, fuel, m).Some?
    decreases fuel, c
  {
    match c
    case Seq(c1, c2) => Tests(c1, s, fuel, m) + Tests(c2, Run(c1, s, fuel, m).value, fuel, m)
    case While(_, test, body) =>
      if !Holds(test, s, m) then [false]
      else [true] + Tests(body, s, fuel - 1, m) + Tests(c, Run(body, s, fuel - 1, m).value, fuel - 1, m)
    case _ => []
  }

  /** The visitor, updating its dictionary in place. */
  class SymbolicInterpreter {
    var state: SymState
    var tests: seq<bool>
    const simplify: Sym -> Sym

    constructor (s: SymState, simplify: Sym -> Sym)
      ensures state == s && tests == [] && this.simplify == simplify
    {
      state, tests := s, [];
      this.simplify := simplify;
    }

    method Visit(c: Stmt, fuel: nat) returns (ended: bool)
      modifies this
      ensures ended == SymRun(c, old(state), fuel, simplify).Done?
      ensures ended ==> Done(state, tests) == Behind(old(tests), SymRun(c, old(state), fuel, simplify))
      decreases fuel, c
    {
      hide SymEval, SymRun, Behind;
      ended := true;
      if !c.Seq? && !c.While? { SymLeaf(c, state, fuel, simplify, tests); }
      match c
      case Just(_) =>
      case AssignVar(x, e) =>
        var v := SymEval(e, state, simplify);
        if v.None? { return false; }
        state := state[x := Scal(v.value)];
      case AssignArr(a, loc, e) =>
        var v := SymEval(e, state, simplify);
        var at := SymEval(loc, state, simplify);
        if v.None? || at.None? || !at.value.IntS? || a !in state || !state[a].SArr? { return false; }
        state := state[a := SArr(state[a].cells[at.value.i := v.value])];
      case Seq(c1, c2) =>
        SymSeq(c, state, fuel, simplify);
        ghost var r1 := SymRun(c1, state, fuel, simplify);
        if r1.Done? {
          BehindTwice(tests, r1.tests, SymRun(c2, r1.state, fuel, simplify));
          BehindTwice(r1.tests, [], SymRun(c2, r1.state, fuel, simplify));
        }
        BehindTwice(tests, [], r1);
        ended := Visit(c1, fuel);
        if ended { ended := Visit(c2, fuel); }
      case While(_, test, body) =>
        var left: nat := fuel;
        var b := SymEval(test, state, simplify);
        while b.Some? && b.value == BoolS(true)
          invariant left <= fuel && b == SymEval(test, state, simplify)
          invariant SymRun(c, old(state), fuel, simplify).Done? <==> SymRun(c, state, left, simplify).Done?
          invariant Behind(old(tests), SymRun(c, old(state), fuel, simplify))
            == Behind(tests, SymRun(c, state, left, simplify))
          decreases left
        {
          SymWhile(c, state, left, simplify);
          if left == 0 { return false; }
          left := left - 1;
          LoopStep(c, state, left, simplify, tests);
          tests := tests + [true];
          ended := Visit(body, left);
          if !ended { return; }
          b := SymEval(test, state, simplify);
        }
        SymWhile(c, state, left, simplify);
        if b.None? || !b.value.BoolS? { return false; }
        BehindTwice(tests, [], SymRun(c, state, left, simplify));
        tests := tests + [false];
        ended := true;
    }
  }

  /** One iteration, seen from the tests so far. */
  lemma LoopStep(c: Stmt, s: SymState, left: nat, simplify: Sym -> Sym, tests: seq<bool>)
    requires c.While? && SymEval(c.test, s, simplify) == Some(BoolS(true))
    ensures var r := SymRun(c, s, left + 1, simplify);
      var r1 := SymRun(c.body, s, left, simplify);
      if r1.Done? then
        var inner := Behind(tests + [true], r1);
        && inner == Done(r1.state, inner.tests)
        && Behind(tests, r) == Behind(inner.tests, SymRun(c, r1.state, left, simplify))
        && (r.Done? <==> SymRun(c, r1.state, left, simplify).Done?)
      else !r.Done?
  {
    hide SymEval, SymRun, Behind;
    SymWhile(c, s, left + 1, simplify);
    var r1 := SymRun(c.body, s, left, simplify);
    if r1.Done? {
      var rest := SymRun(c, r1.state, left, simplify);
      BehindTwice(tests + [true], [], r1);
      BehindTwice(tests, [true] + r1.tests, rest);
      BehindTwice([true] + r1.tests, [], rest);
      assert tests + [true] + r1.tests == tests + ([true] + r1.tests);
    }
  }

  // ----- adequacy -----

  /** Numbers compare as numbers. */
  ghost predicate ComparesNumbers(m: Model) {
    forall a, b :: m.bin(Lt, IntV(a), IntV(b)) == BoolV(a < b)
  }

  lemma {:induction false} EvalAdequate(e: Exp, s: SymState, simplify: Sym -> Sym, val: Valuation, m: Model)
    requires Simplifier(simplify, m) && ComparesNumbers(m) && SymEval(e, s, simplify).Some?
    ensures Eval(e, MeanState(s, val, m), m) == Mean(SymEval(e, s, simplify).value, val, m)
  {
    match e
    case Bin(left, op, right) =>
      EvalAdequate(left, s, simplify, val, m);
      EvalAdequate(right, s, simplify, val, m);
    case Arr(a, loc) =>
      EvalAdequate(loc, s, simplify, val, m);
    case _ =>
  }

  lemma AssignedMeans(s: SymState, x: string, v: SymVal, val: Valuation, m: Model)
    ensures MeanState(s[x := v], val, m) == MeanState(s, val, m)[x := MeanVal(v, val, m)]
  {
    hide MeanVal;
  }

  lemma StoredMeans(cells: map<int, Sym>, i: int, v: Sym, val: Valuation, m: Model)
    ensures MeanVal(SArr(cells[i := v]), val, m) == Store(MeanVal(SArr(cells), val, m), IntV(i), Mean(v, val, m))
  {
    hide Mean;
    var more := cells[i := v];
    assert (map k | k in more :: Mean(more[k], val, m))
      == (map k | k in cells :: Mean(cells[k], val, m))[i := Mean(v, val, m)];
  }

  /** For every program, a symbolic run stands for the concrete runs of every valuation: it ends
      in the same way, with the valued final state, after the same loop tests. */
  lemma {:induction false} SymbolicAdequacy(c: Stmt, s: SymState, fuel: nat, simplify: Sym -> Sym, val: Valuation,
                                            m: Model)
    requires Simplifier(simplify, m) && ComparesNumbers(m) && !SymRun(c, s, fuel, simplify).Raised?
    ensures var r := SymRun(c, s, fuel, simplify);
      var concrete := Run(c, MeanState(s, val, m), fuel, m);
      && (r.OutOfFuel? ==> concrete.None?)
      && (r.Done?
        ==> concrete == Some(MeanState(r.state, val, m)) && Tests(c, MeanState(s, val, m), fuel, m) == r.tests)
    decreases fuel, c
  {
    hide SymEval, Eval, Mean, MeanVal, MeanState, Simplifier, Store;
    match c
    case Just(_) =>
    case AssignVar(x, e) =>
      EvalAdequate(e, s, simplify, val, m);
      ScalMeans(SymEval(e, s, simplify).value, val, m);
      AssignedMeans(s, x, Scal(SymEval(e, s, simplify).value), val, m);
    case AssignArr(a, loc, e) =>
      ArrayAssigned(s, a, loc, e, simplify, val, m);
    case Seq(c1, c2) =>
      SymbolicAdequacy(c1, s, fuel, simplify, val, m);
      var r1 := SymRun(c1, s, fuel, simplify);
      if r1.Done? { SymbolicAdequacy(c2, r1.state, fuel, simplify, val, m); }
    case While(_, test, body) =>
      TestAdequate(test, s, simplify, val, m);
      if SymEval(test, s, simplify).value.b && fuel > 0 {
        SymbolicAdequacy(body, s, fuel - 1, simplify, val, m);
        var r1 := SymRun(body, s, fuel - 1, simplify);
        if r1.Done? { SymbolicAdequacy(c, r1.state, fuel - 1, simplify, val, m); }
      }
  }

  lemma ScalMeans(e: Sym, val: Valuation, m: Model)
    ensures MeanVal(Scal(e), val, m) == Mean(e, val, m)
  {
  }

  lemma TestAdequate(test: Exp, s: SymState, simplify: Sym -> Sym, val: Valuation, m: Model)
    requires Simplifier(simplify, m) && ComparesNumbers(m) && SymEval(test, s, simplify).Some?
    requires SymEval(test, s, simplify).value.BoolS?
    ensures Holds(test, MeanState(s, val, m), m) <==> SymEval(test, s, simplify).value.b
  {
    hide SymEval, Eval, MeanState, Simplifier;
    EvalAdequate(test, s, simplify, val, m);
  }

  lemma ArrayAssigned(s: SymState, a: string, loc: Exp, e: Exp, simplify: Sym -> Sym, val: Valuation, m: Model)
    requires Simplifier(simplify, m) && ComparesNumbers(m)
    requires SymAssignArr(s, a, SymEval(loc, s, simplify), SymEval(e, s, simplify)).Some?
    ensures var t := MeanState(s, val, m);
      t[a := Store(Lookup(t, a), Eval(loc, t, m), Eval(e, t, m))]
      == MeanState(SymAssignArr(s, a, SymEval(loc, s, simplify), SymEval(e, s, simplify)).value, val, m)
  {
    hide SymEval, Eval, Simplifier, Store, MeanVal;
    EvalAdequate(e, s, simplify, val, m);
    EvalAdequate(loc, s, simplify, val, m);
    var i := SymEval(loc, s, simplify).value.i;
    var v := SymEval(e, s, simplify).value;
    StoredMeans(s[a].cells, i, v, val, m);
    AssignedMeans(s, a, SArr(s[a].cells[i := v]), val, m);
  }

  // ----- programs steered by scalars alone -----

  /** Expressions over the numbers in `clean`. */
  predicate CleanExp(e: Exp, clean: set<string>) {
    match e
    case Var(x) => x in clean
    case Num(_) => true
    case Bin(l, op, r) => Folded(op) && CleanExp(l, clean) && CleanExp(r, clean)
    case _ => false
  }

  /** Expressions that may read arrays, at clean indices. */
  predicate DataExp(e: Exp, clean: set<string>, arrays: set<string>) {
    match e
    case Var(x) => x !in arrays
    case Num(_) => true
    case Bin(l, op, r) => (op.Lt? || op.Div? || Folded(op)) && DataExp(l, clean, arrays) && DataExp(r, clean, arrays)
    case Arr(a, loc) => a.Var? && a.name in arrays && CleanExp(loc, clean)
    case _ => false
  }

  /** Started with numbers in `before`, the program has numbers in `after`, and no loop test and
      no array index depends on an array's contents. */
  ghost predicate Steered(c: Stmt, before: set<string>, after: set<string>, arrays: set<string>)
    decreases c
  {
    match c
    case Just(_) => after <= before
    case AssignVar(x, e) =>
      && x !in arrays && DataExp(e, before, arrays)
      && after <= (if CleanExp(e, before) then before + {x} else before - {x})
    case AssignArr(a, loc, e) => a in arrays && CleanExp(loc, before) && DataExp(e, before, arrays) && after <= before
    case Seq(c1, c2) => exists between :: Steered(c1, before, between, arrays) && Steered(c2, between, after, arrays)
    case While(_, test, body) =>
      test.Bin? && test.op.Lt?
      && exists inv: set<string> :: Steered(body, inv, inv, arrays) && after <= inv <= before
           && CleanExp(test.left, inv) && CleanExp(test.right, inv)
  }

  /** The names in `clean` hold numbers, those in `arrays` arrays, and no other holds an array. */
  predicate Sorted(s: SymState, clean: set<string>, arrays: set<string>) {
    && (forall x | x in clean :: x in s && s[x].Scal? && s[x].e.IntS?)
    && (forall a | a in arrays :: a in s)
    && (forall x | x in s :: s[x].SArr? <==> x in arrays)
  }

  lemma FoldedBin(l: Sym, op: Op, r: Sym, simplify: Sym -> Sym)
    requires FoldsNumbers(simplify) && Folded(op) && l.IntS? && r.IntS?
    ensures SymBin(l, op, r, simplify).Some? && SymBin(l, op, r, simplify).value.IntS?
  {
  }

  lemma DataBin(l: Sym, op: Op, r: Sym, simplify: Sym -> Sym)
    requires op.Lt? || op.Div? || Folded(op)
    ensures SymBin(l, op, r, simplify).Some?
  {
  }

  lemma {:induction false} CleanEval(e: Exp, s: SymState, clean: set<string>, arrays: set<string>, simplify: Sym -> Sym)
    requires FoldsNumbers(simplify) && Sorted(s, clean, arrays) && CleanExp(e, clean)
    ensures SymEval(e, s, simplify).Some? && SymEval(e, s, simplify).value.IntS?
  {
    hide FoldsNumbers, SymBin;
    match e
    case Bin(l, op, r) =>
      CleanEval(l, s, clean, arrays, simplify);
      CleanEval(r, s, clean, arrays, simplify);
      FoldedBin(SymEval(l, s, simplify).value, op, SymEval(r, s, simplify).value, simplify);
    case _ =>
  }

  lemma {:induction false} DataEval(e: Exp, s: SymState, clean: set<string>, arrays: set<string>, simplify: Sym -> Sym)
    requires FoldsNumbers(simplify) && Sorted(s, clean, arrays) && DataExp(e, clean, arrays)
    ensures SymEval(e, s, simplify).Some?
  {
    hide FoldsNumbers, SymBin;
    match e
    case Bin(l, op, r) =>
      DataEval(l, s, clean, arrays, simplify);
      DataEval(r, s, clean, arrays, simplify);
      DataBin(SymEval(l, s, simplify).value, op, SymEval(r, s, simplify).value, simplify);
    case Arr(a, loc) => CleanEval(loc, s, clean, arrays, simplify);
    case _ =>
  }

  /** A steered program never raises. */
  lemma {:induction false} SteeredNeverRaises(c: Stmt, before: set<string>, after: set<string>, arrays: set<string>,
                                              s: SymState, fuel: nat, simplify: Sym -> Sym)
    requires FoldsNumbers(simplify) && Steered(c, before, after, arrays) && Sorted(s, before, arrays)
    ensures var r := SymRun(c, s, fuel, simplify); !r.Raised? && (r.Done? ==> Sorted(r.state, after, arrays))
    decreases fuel, c
  {
    hide SymEval, CleanExp, DataExp, FoldsNumbers;
    match c
    case Just(_) =>
    case AssignVar(x, e) =>
      DataEval(e, s, before, arrays, simplify);
      if CleanExp(e, before) { CleanEval(e, s, before, arrays, simplify); }
    case AssignArr(a, loc, e) =>
      CleanEval(loc, s, before, arrays, simplify);
      DataEval(e, s, before, arrays, simplify);
    case Seq(c1, c2) =>
      var between :| Steered(c1, before, between, arrays) && Steered(c2, between, after, arrays);
      SteeredNeverRaises(c1, before, between, arrays, s, fuel, simplify);
      var r1 := SymRun(c1, s, fuel, simplify);
      if r1.Done? { SteeredNeverRaises(c2, between, after, arrays, r1.state, fuel, simplify); }
    case While(_, test, body) =>
      var inv: set<string> :| Steered(body, inv, inv, arrays) && after <= inv <= before
        && CleanExp(test.left, inv) && CleanExp(test.right, inv);
      TestIsConcrete(test, s, inv, arrays, simplify);
      if SymEval(test, s, simplify).value.b && fuel > 0 {
        SteeredNeverRaises(body, inv, inv, arrays, s, fuel - 1, simplify);
        var r1 := SymRun(body, s, fuel - 1, simplify);
        if r1.Done? {
          assert Steered(c, inv, after, arrays);
          SteeredNeverRaises(c, inv, after, arrays, r1.state, fuel - 1, simplify);
        }
      }
  }

  lemma TestIsConcrete(test: Exp, s: SymState, clean: set<string>, arrays: set<string>, simplify: Sym -> Sym)
    requires FoldsNumbers(simplify) && Sorted(s, clean, arrays)
    requires test.Bin? && test.op.Lt? && CleanExp(test.left, clean) && CleanExp(test.right, clean)
    ensures SymEval(test, s, simplify).Some? && SymEval(test, s, simplify).value.BoolS?
  {
    hide Sorted, FoldsNumbers, CleanExp;
    CleanEval(test.left, s, clean, arrays, simplify);
    CleanEval(test.right, s, clean, arrays, simplify);
  }

  // ----- one symbolic run serves all arrays -----

  /** A concrete state of numbers and arrays, with the array cells replaced by symbols. */
  function Abstract(s: State): SymState
    requires forall x | x in s :: s[x].IntV? || s[x].ArrV?
  {
    map x | x in s :: if s[x].IntV? then Scal(IntS(s[x].i)) else SArr(map i | i in s[x].cells :: Cell(x, i))
  }

  function CellsOf(s: State): Valuation {
    (a: string, i: int) => if a in s && s[a].ArrV? && i in s[a].cells then s[a].cells[i] else Undef
  }

  lemma AbstractMeans(s: State, m: Model)
    requires forall x | x in s :: s[x].IntV? || s[x].ArrV?
    ensures MeanState(Abstract(s), CellsOf(s), m) == s
  {
    forall x | x in s ensures MeanVal(Abstract(s)[x], CellsOf(s), m) == s[x] {
      if s[x].ArrV? {
        var cells := s[x].cells;
        assert (map i | i in cells :: Mean(map[i := Cell(x, i)][i], CellsOf(s), m)) == cells;
      }
    }
  }

  /** Two inputs that differ in array contents alone. */
  ghost predicate SameButContents(s: State, t: State) {
    && s.Keys == t.Keys
    && (forall x | x in s :: s[x].IntV? || s[x].ArrV?)
    && (forall x | x in s :: if s[x].IntV? then t[x] == s[x] else t[x].ArrV? && t[x].cells.Keys == s[x].cells.Keys)
  }

  /** For a steered program, inputs that differ only in array contents run through the same loop
      tests, and one symbolic final state, computed from the first, gives the final state of each. */
  lemma OneRunServesAllArrays(c: Stmt, clean: set<string>, after: set<string>, s: State, t: State, fuel: nat,
                              simplify: Sym -> Sym, m: Model)
    requires Simplifier(simplify, m) && FoldsNumbers(simplify) && ComparesNumbers(m)
    requires SameButContents(s, t) && Steered(c, clean, after, set x | x in s && s[x].ArrV?)
    requires forall x | x in clean :: x in s && s[x].IntV?
    ensures Run(c, s, fuel, m).Some? <==> Run(c, t, fuel, m).Some?
    ensures var r := SymRun(c, Abstract(s), fuel, simplify);
      Run(c, s, fuel, m).Some? ==>
        && r.Done?
        && Run(c, s, fuel, m).value == MeanState(r.state, CellsOf(s), m)
        && Run(c, t, fuel, m).value == MeanState(r.state, CellsOf(t), m)
        && Tests(c, s, fuel, m) == Tests(c, t, fuel, m) == r.tests
  {
    hide SymEval, Eval, Mean, MeanState, Simplifier, Steered, SymRun, Run, Tests, ComparesNumbers, FoldsNumbers,
      CellsOf;
    var arrays := set x | x in s && s[x].ArrV?;
    assert Abstract(t) == Abstract(s);
    SteeredNeverRaises(c, clean, after, arrays, Abstract(s), fuel, simplify);
    SymbolicAdequacy(c, Abstract(s), fuel, simplify, CellsOf(s), m);
    SymbolicAdequacy(c, Abstract(t), fuel, simplify, CellsOf(t), m);
    AbstractMeans(s, m);
    AbstractMeans(t, m);
  }

  // ----- such simplifiers exist -----

  function Arith(a: int, op: Op, b: int): int {
    match op
    case Add => a + b
    case Sub => a - b
    case _ => a * b
  }

  function Fold(e: Sym): Sym {
    if e.OpS? && Folded(e.op) && e.l.IntS? && e.r.IntS? then IntS(Arith(e.l.i, e.op, e.r.i)) else e
  }

  lemma FoldIsSimplifier(m: Model)
    requires forall l: Value, op: Op, r: Value ::
      Folded(op) && l.IntV? && r.IntV? ==> m.bin(op, l, r) == IntV(Arith(l.i, op, r.i))
    ensures Simplifier(Fold, m) && FoldsNumbers(Fold)
  {
    forall e, val ensures Mean(Fold(e), val, m) == Mean(e, val, m) {
      if Fold(e) != e {
        assert Mean(e, val, m) == m.bin(e.op, Mean(e.l, val, m), Mean(e.r, val, m));
      }
    }
  }
}
