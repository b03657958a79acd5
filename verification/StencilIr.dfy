/** The stencil IR (backend/stencil_ir.py): expressions, statements and the printer whose
    text is also the key under which a loop's invariant is stored.

    Three representation choices, none of which any pass can observe:
    - a block of statements s1..sn is the left-nested `Seq(..Seq(s1, s2).., sn)`: printing,
      executing and computing preconditions treat a one-statement block as its statement and
      split a longer block into "all but the last" and "the last";
    - the variable node "true" that the generator emits is the constructor `True`;
    - an augmented array has exactly one key, as every one the generator creates does. */
module StencilIr {
  /** The operators of the IR and `&&`, which only generated formulas use. */
  datatype Op = Add | Sub | Mul | Div | Lt | Gt | Le | Ge | Eq | And

  datatype Exp =
    | True
    | Var(name: string)
    | Num(val: int)
    | Bin(left: Exp, op: Op, right: Exp)
    | Not(ex: Exp)
    | Arr(arr: Exp, loc: Exp)
    | Aug(base: Exp, key: Exp, value: Exp)
    | Call(fname: string, params: seq<Exp>)
    | Implies(ifx: Exp, cons: Exp)

  datatype Stmt =
    | Just(e: Exp)
    | AssignVar(x: string, rval: Exp)
    | AssignArr(a: string, loc: Exp, rval: Exp)
    | Seq(init: Stmt, last: Stmt)
    | While(iterVar: string, test: Exp, body: Stmt)

  datatype Option<+T> = None | Some(value: T) {
    predicate IsFailure() { None? }
    function PropagateFailure<U>(): Option<U> requires None? { None }
    function Extract(): T requires Some? { value }
  }

  /** The members of a set in some order. */
  ghost function ToSeq(xs: set<string>): (r: seq<string>)
    ensures forall x :: x in r <==> x in xs
  {
    if xs == {} then []
    else
      var x :| x in xs;
      [x] + ToSeq(xs - {x})
  }

  // ----- printing -----

  function Digit(d: nat): char
    requires d < 10
  {
    "0123456789"[d]
  }

  function NatToStr(n: nat): string {
    if n < 10 then [Digit(n)] else NatToStr(n / 10) + [Digit(n % 10)]
  }

  function IntToStr(i: int): string {
    if i < 0 then "-" + NatToStr(-i) else NatToStr(i)
  }

  function OpToStr(op: Op): string {
    match op
    case Add => "+"
    case Sub => "-"
    case Mul => "*"
    case Div => "/"
    case Lt => "<"
    case Gt => ">"
    case Le => "<="
    case Ge => ">="
    case Eq => "=="
    case And => "&&"
  }

  function TreeToStr(e: Exp): string {
    match e
    case True => "true"
    case Var(x) => x
    case Num(i) => IntToStr(i)
    case Bin(l, op, r) => "(" + TreeToStr(l) + " " + OpToStr(op) + " " + TreeToStr(r) + ")"
    case Not(b) => "!(" + TreeToStr(b) + ")"
    case Arr(a, loc) => TreeToStr(a) + "[" + TreeToStr(loc) + "]"
    case Aug(a, k, v) => TreeToStr(a) + "{" + TreeToStr(k) + ":=" + TreeToStr(v) + "}"
    case Call(f, ps) => f + "(" + ParamsToStr(ps) + ")"
    case Implies(a, c) => "(" + TreeToStr(a) + ") -> (" + TreeToStr(c) + ")"
  }

  function ParamsToStr(ps: seq<Exp>): string {
    if ps == [] then ""
    else if |ps| == 1 then TreeToStr(ps[0])
    else TreeToStr(ps[0]) + "," + ParamsToStr(ps[1..])
  }

  function StmtToStr(s: Stmt): string {
    match s
    case Just(e) => TreeToStr(e)
    case AssignVar(x, e) => x + " = " + TreeToStr(e)
    case AssignArr(a, loc, e) => TreeToStr(Arr(Var(a), loc)) + " = " + TreeToStr(e)
    case Seq(c1, c2) => StmtToStr(c1) + "\n" + StmtToStr(c2)
    case While(_, test, body) => "while (" + TreeToStr(test) + ") do {" + StmtToStr(body) + "}"
  }

  // ----- variables and loops -----

  function Vars(e: Exp): set<string> {
    match e
    case True => {}
    case Num(_) => {}
    case Var(x) => {x}
    case Bin(l, _, r) => Vars(l) + Vars(r)
    case Not(b) => Vars(b)
    case Arr(a, loc) => Vars(a) + Vars(loc)
    case Aug(a, k, v) => Vars(a) + Vars(k) + Vars(v)
    case Call(_, ps) => VarsOf(ps)
    case Implies(a, c) => Vars(a) + Vars(c)
  }

  function VarsOf(ps: seq<Exp>): set<string> {
    set i, x | 0 <= i < |ps| && x in Vars(ps[i]) :: x
  }

  /** Program expressions: what the interpreter can evaluate (interpret.py:81-105). */
  predicate Plain(e: Exp) {
    match e
    case Var(_) => true
    case Num(_) => true
    case Bin(l, op, r) => !op.And? && Plain(l) && Plain(r)
    case Arr(a, loc) => a.Var? && Plain(loc)
    case _ => false
  }

  function Assigned(s: Stmt): set<string> {
    match s
    case Just(_) => {}
    case AssignVar(x, _) => {x}
    case AssignArr(a, _, _) => {a}
    case Seq(c1, c2) => Assigned(c1) + Assigned(c2)
    case While(_, _, body) => Assigned(body)
  }

  /** The key of a loop; the source hashes the text, taken to be injective. */
  function LoopKey(c: Stmt): string { StmtToStr(c) }

  function LoopKeys(s: Stmt): set<string> {
    match s
    case Seq(c1, c2) => LoopKeys(c1) + LoopKeys(c2)
    case While(_, _, body) => {LoopKey(s)} + LoopKeys(body)
    case _ => {}
  }

  /** A loop's text is strictly longer than the text of any loop inside it. */
  lemma {:induction false} InnerTextsAreShorter(s: Stmt, key: string)
    requires key in LoopKeys(s)
    ensures |key| <= |StmtToStr(s)|
    ensures s.While? && key in LoopKeys(s.body) ==> |key| < |LoopKey(s)|
  {
    match s
    case Seq(c1, c2) =>
      if key in LoopKeys(c1) { InnerTextsAreShorter(c1, key); } else { InnerTextsAreShorter(c2, key); }
    case While(_, _, body) =>
      if key in LoopKeys(body) { InnerTextsAreShorter(body, key); }
    case _ =>
  }

  /** Pairwise distinct loop texts. */
  predicate DistinctLoops(s: Stmt) {
    match s
    case Seq(c1, c2) => LoopKeys(c1) !! LoopKeys(c2) && DistinctLoops(c1) && DistinctLoops(c2)
    case While(_, _, body) => DistinctLoops(body)
    case _ => true
  }
}
