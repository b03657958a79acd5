/** The expression grammar (backend/parse_ir.py:10-66) as a recogniser, and the printer's inverse.
    Whitespace is skipped before every token and the first alternative that matches is taken. */
module Parser {
  import opened StencilIr

  // ----- tokens -----

  predicate Space(c: char) { c == ' ' || c == '\t' || c == '\n' || c == '\r' }

  predicate IsDigit(c: char) { '0' <= c <= '9' }

  predicate IdentStart(c: char) { 'a' <= c <= 'z' || 'A' <= c <= 'Z' || c == '_' }

  predicate IdentChar(c: char) { IdentStart(c) || IsDigit(c) }

  function Skip(s: string): (r: string)
    ensures |r| <= |s|
  {
    if s != "" && Space(s[0]) then Skip(s[1..]) else s
  }

  /** Length of the longest prefix of identifier characters. */
  function IdentLen(s: string): (n: nat)
    ensures n <= |s|
  {
    if s != "" && IdentChar(s[0]) then 1 + IdentLen(s[1..]) else 0
  }

  /** Length of the longest prefix of digits and points. */
  function NumLen(s: string): (n: nat)
    ensures n <= |s|
  {
    if s != "" && (IsDigit(s[0]) || s[0] == '.') then 1 + NumLen(s[1..]) else 0
  }

  function NatOf(s: string): nat {
    if s == "" then 0 else 10 * NatOf(s[..|s| - 1]) + if IsDigit(s[|s| - 1]) then (s[|s| - 1] - '0') as nat else 0
  }

  predicate Head(s: string, c: char) { s != "" && s[0] == c }

  /** The three operator levels, the tightest first. */
  function Level(op: Op): nat {
    match op
    case Mul => 1
    case Div => 1
    case Add => 2
    case Sub => 2
    case And => 4
    case _ => 3
  }

  datatype ParsedOp = ParsedOp(op: Op, rest: string)

  /** An operator of level `k`; the longer of two that match is taken. */
  function ParseOp(k: nat, s: string): (r: Option<ParsedOp>)
    ensures r.Some? ==> |r.value.rest| < |s|
  {
    var t := Skip(s);
    if k == 1 && Head(t, '*') then Some(ParsedOp(Mul, t[1..]))
    else if k == 1 && Head(t, '/') then Some(ParsedOp(Div, t[1..]))
    else if k == 2 && Head(t, '+') then Some(ParsedOp(Add, t[1..]))
    else if k == 2 && Head(t, '-') then Some(ParsedOp(Sub, t[1..]))
    else if k == 3 && Head(t, '<') && Head(t[1..], '=') then Some(ParsedOp(Le, t[2..]))
    else if k == 3 && Head(t, '>') && Head(t[1..], '=') then Some(ParsedOp(Ge, t[2..]))
    else if k == 3 && Head(t, '=') && Head(t[1..], '=') then Some(ParsedOp(Eq, t[2..]))
    else if k == 3 && Head(t, '<') then Some(ParsedOp(Lt, t[1..]))
    else if k == 3 && Head(t, '>') then Some(ParsedOp(Gt, t[1..]))
    else None
  }

  // ----- the grammar -----

  datatype Parsed = Parsed(e: Exp, rest: string)

  datatype Tail = Tail(pairs: seq<(Op, Exp)>, rest: string)

  /** Array access, number, variable or parenthesised expression. */
  function ParseAtom(s: string): (r: Option<Parsed>)
    ensures r.Some? ==> |r.value.rest| < |s|
    decreases |s|, 0
  {
    var t := Skip(s);
    if t != "" && IdentStart(t[0]) then
      var n := IdentLen(t);
      var loc := if Head(Skip(t[n..]), '[') then ParseLevel(3, Skip(t[n..])[1..]) else None;
      if loc.Some? && Head(Skip(loc.value.rest), ']') then
        Some(Parsed(Arr(Var(t[..n]), loc.value.e), Skip(loc.value.rest)[1..]))
      else Some(Parsed(Var(t[..n]), t[n..]))
    else if t != "" && IsDigit(t[0]) then
      var n := NumLen(t);
      if '.' in t[..n] then None else Some(Parsed(Num(NatOf(t[..n])), t[n..]))
    else if Head(t, '(') then
      var inner := ParseLevel(3, t[1..]);
      if inner.Some? && Head(Skip(inner.value.rest), ')') then Some(Parsed(inner.value.e, Skip(inner.value.rest)[1..]))
      else None
    else None
  }

  /** Operands of the tighter level joined by operators of level `k`, folded to the left. */
  function ParseLevel(k: nat, s: string): (r: Option<Parsed>)
    ensures r.Some? ==> |r.value.rest| < |s|
    decreases |s|, k + 1
  {
    if k == 0 then ParseAtom(s)
    else
      var first := ParseLevel(k - 1, s);
      if first.None? then None
      else
        var tail := ParseTail(k, first.value.rest);
        Some(Parsed(Fold(first.value.e, tail.pairs), tail.rest))
  }

  function ParseTail(k: nat, s: string): (r: Tail)
    requires k > 0
    ensures |r.rest| <= |s|
    decreases |s|, k
  {
    var op := ParseOp(k, s);
    if op.None? then Tail([], s)
    else
      var operand := ParseLevel(k - 1, op.value.rest);
      if operand.None? then Tail([], s)
      else
        var more := ParseTail(k, operand.value.rest);
        Tail([(op.value.op, operand.value.e)] + more.pairs, more.rest)
  }

  function ParseExpression(s: string): Option<Exp> {
    var r := ParseLevel(3, s);
    if r.Some? then Some(r.value.e) else None
  }

  function Fold(e: Exp, pairs: seq<(Op, Exp)>): Exp
    decreases |pairs|
  {
    if pairs == [] then e else Fold(Bin(e, pairs[0].0, pairs[0].1), pairs[1..])
  }

  // ----- the parse action -----

  datatype Token = Operand(e: Exp) | Operator(op: Op)

  function Tokens(pairs: seq<(Op, Exp)>): (r: seq<Token>)
    ensures |r| == 2 * |pairs|
  {
    if pairs == [] then [] else [Operator(pairs[0].0), Operand(pairs[0].1)] + Tokens(pairs[1..])
  }

  lemma TokensCons(e: Exp, pairs: seq<(Op, Exp)>)
    requires pairs != []
    ensures var x := [Operand(e)] + Tokens(pairs);
      && x[0] == Operand(e) && x[1] == Operator(pairs[0].0) && x[2] == Operand(pairs[0].1)
      && x[3..] == Tokens(pairs[1..])
  {
    hide Tokens;
    TokensUnfold(pairs);
    var more := Tokens(pairs[1..]);
    assert [Operand(e)] + ([Operator(pairs[0].0), Operand(pairs[0].1)] + more)
      == [Operand(e), Operator(pairs[0].0), Operand(pairs[0].1)] + more;
  }

  lemma TokensUnfold(pairs: seq<(Op, Exp)>)
    requires pairs != []
    ensures Tokens(pairs) == [Operator(pairs[0].0), Operand(pairs[0].1)] + Tokens(pairs[1..])
  {
  }

  lemma FoldSteps(e: Exp, pairs: seq<(Op, Exp)>)
    requires pairs != []
    ensures Fold(e, pairs) == Fold(Bin(e, pairs[0].0, pairs[0].1), pairs[1..])
    ensures Fold(e, []) == e && Fold(Bin(e, pairs[0].0, pairs[0].1), []) == Bin(e, pairs[0].0, pairs[0].1)
  {
  }

  /** parse_ir.py:46-56: the token list is rewritten until three tokens are left. */
  method MyAction(first: Exp, pairs: seq<(Op, Exp)>) returns (r: Exp)
    requires pairs != []
    ensures r == Fold(first, pairs)
  {
    hide Tokens, Fold;
    var x := [Operand(first)] + Tokens(pairs);
    ghost var acc, todo := first, pairs;
    while |x| > 3
      invariant todo != [] && x == [Operand(acc)] + Tokens(todo)
      invariant Fold(acc, todo) == Fold(first, pairs)
      decreases |x|
    {
      TokensCons(acc, todo);
      FoldSteps(acc, todo);
      var ret := Bin(x[0].e, x[1].op, x[2].e);
      x := [Operand(ret)] + x[3..];
      acc, todo := Bin(acc, todo[0].0, todo[0].1), todo[1..];
    }
    TokensCons(acc, todo);
    FoldSteps(acc, todo);
    assert todo[1..] == [];
    r := Bin(x[0].e, x[1].op, x[2].e);
  }

  // ----- chains of operators -----

  /** An operator and its right operand, as it is written and as it is read, with the whitespace
      around the operator. */
  datatype Link = Link(before: string, op: Op, after: string, text: string, e: Exp)

  predicate Identifier(x: string) { x != "" && IdentStart(x[0]) && forall i | 0 <= i < |x| :: IdentChar(x[i]) }

  /** Variables, non-negative numbers, array reads and the parser's operators. */
  predicate Printable(e: Exp) {
    match e
    case Var(x) => Identifier(x)
    case Num(i) => i >= 0
    case Bin(l, op, r) => !op.And? && Printable(l) && Printable(r)
    case Arr(a, loc) => a.Var? && Identifier(a.name) && Printable(loc)
    case _ => false
  }

  predicate Blank(s: string) { forall i | 0 <= i < |s| :: Space(s[i]) }

  /** What may follow an atom without becoming part of it. */
  predicate Stops(rest: string) {
    (rest != "" ==> !IdentChar(rest[0]) && rest[0] != '.') && !Head(Skip(rest), '[')
  }

  /** The text is an atom that is read as `e`. */
  ghost predicate Reads(text: string, e: Exp) {
    && text != "" && !Space(text[0]) && text[0] != '='
    && forall rest | Stops(rest) :: ParseAtom(text + rest) == Some(Parsed(e, rest))
  }

  ghost predicate GoodLink(k: nat, l: Link) {
    Blank(l.before) && Blank(l.after) && Level(l.op) <= k && k <= 3 && Reads(l.text, l.e)
  }

  ghost predicate GoodLinks(k: nat, ls: seq<Link>) { forall i | 0 <= i < |ls| :: GoodLink(k, ls[i]) }

  function TailText(ls: seq<Link>): string {
    if ls == [] then "" else ls[0].before + OpToStr(ls[0].op) + ls[0].after + ls[0].text + TailText(ls[1..])
  }

  /** A syntax tree over operands, which are leaves even when they are operations. */
  datatype Syntax = Leaf(e: Exp) | Node(l: Syntax, op: Op, r: Syntax)

  function Plainly(t: Syntax): Exp {
    match t
    case Leaf(e) => e
    case Node(l, op, r) => Bin(Plainly(l), op, Plainly(r))
  }

  function FoldSyntax(t: Syntax, pairs: seq<(Op, Syntax)>): Syntax
    decreases |pairs|
  {
    if pairs == [] then t else FoldSyntax(Node(t, pairs[0].0, pairs[0].1), pairs[1..])
  }

  /** How many links from the front are tighter than `k`. */
  function Tighter(k: nat, ls: seq<Link>): (n: nat)
    ensures n <= |ls| && (forall i | 0 <= i < n :: Level(ls[i].op) < k) && (n < |ls| ==> Level(ls[n].op) >= k)
  {
    if ls != [] && Level(ls[0].op) < k then 1 + Tighter(k, ls[1..]) else 0
  }

  function Tree(k: nat, e: Exp, ls: seq<Link>): Syntax
    decreases |ls|, k, 1
  {
    if k == 0 then Leaf(e)
    else
      var n := Tighter(k, ls);
      FoldSyntax(Tree(k - 1, e, ls[..n]), Pairs(k, ls[n..]))
  }

  function Pairs(k: nat, ls: seq<Link>): seq<(Op, Syntax)>
    requires k > 0
    decreases |ls|, k, 0
  {
    if ls == [] then []
    else
      var n := Tighter(k, ls[1..]);
      [(ls[0].op, Tree(k - 1, ls[0].e, ls[1..][..n]))] + Pairs(k, ls[1..][n..])
  }

  function PlainPairs(pairs: seq<(Op, Syntax)>): seq<(Op, Exp)> {
    if pairs == [] then [] else [(pairs[0].0, Plainly(pairs[0].1))] + PlainPairs(pairs[1..])
  }

  lemma {:induction false} FoldPlainly(t: Syntax, pairs: seq<(Op, Syntax)>)
    ensures Plainly(FoldSyntax(t, pairs)) == Fold(Plainly(t), PlainPairs(pairs))
    decreases |pairs|
  {
    if pairs != [] { FoldPlainly(Node(t, pairs[0].0, pairs[0].1), pairs[1..]); }
  }

  // ----- order and precedence -----

  function First(t: Syntax): Exp { if t.Leaf? then t.e else First(t.l) }

  /** The operators with their right operands, as they are read from left to right. */
  function InOrder(t: Syntax): seq<(Op, Exp)> {
    if t.Leaf? then [] else InOrder(t.l) + [(t.op, First(t.r))] + InOrder(t.r)
  }

  /** Nothing looser stands below an operator, and nothing equal to its right. */
  predicate Precedence(t: Syntax) {
    t.Node? ==>
      && Precedence(t.l) && Precedence(t.r)
      && (t.l.Node? ==> Level(t.l.op) <= Level(t.op))
      && (t.r.Node? ==> Level(t.r.op) < Level(t.op))
  }

  function Bare(ls: seq<Link>): seq<(Op, Exp)> {
    seq(|ls|, i requires 0 <= i < |ls| => (ls[i].op, ls[i].e))
  }

  predicate AtMost(k: nat, t: Syntax) { t.Node? ==> Level(t.op) <= k }

  /** Operands that may stand to the right of operators of level `k`. */
  predicate Tight(k: nat, pairs: seq<(Op, Syntax)>) {
    forall i | 0 <= i < |pairs| ::
      Level(pairs[i].0) == k && Precedence(pairs[i].1) && (pairs[i].1.Node? ==> Level(pairs[i].1.op) < k)
  }

  function InOrderPairs(pairs: seq<(Op, Syntax)>): seq<(Op, Exp)> {
    if pairs == [] then [] else [(pairs[0].0, First(pairs[0].1))] + InOrder(pairs[0].1) + InOrderPairs(pairs[1..])
  }

  lemma {:induction false} FoldKeeps(k: nat, t: Syntax, pairs: seq<(Op, Syntax)>)
    requires Precedence(t) && AtMost(k, t) && Tight(k, pairs)
    ensures Precedence(FoldSyntax(t, pairs)) && AtMost(k, FoldSyntax(t, pairs))
    ensures First(FoldSyntax(t, pairs)) == First(t)
    ensures InOrder(FoldSyntax(t, pairs)) == InOrder(t) + InOrderPairs(pairs)
    decreases |pairs|
  {
    hide InOrder, First, Level, InOrderPairs, FoldSyntax;
    FoldUnfold(t, pairs);
    if pairs != [] {
      NodeUnfold(t, pairs[0].0, pairs[0].1);
      FoldKeeps(k, Node(t, pairs[0].0, pairs[0].1), pairs[1..]);
    }
  }

  lemma FoldUnfold(t: Syntax, pairs: seq<(Op, Syntax)>)
    ensures FoldSyntax(t, pairs) == if pairs == [] then t else FoldSyntax(Node(t, pairs[0].0, pairs[0].1), pairs[1..])
    ensures InOrderPairs(pairs) ==
      if pairs == [] then [] else [(pairs[0].0, First(pairs[0].1))] + InOrder(pairs[0].1) + InOrderPairs(pairs[1..])
  {
    hide InOrder, First;
  }

  lemma NodeUnfold(l: Syntax, op: Op, r: Syntax)
    ensures InOrder(Node(l, op, r)) == InOrder(l) + [(op, First(r))] + InOrder(r) && First(Node(l, op, r)) == First(l)
  {
  }

  predicate Between(k: nat, ls: seq<Link>) { forall i | 0 <= i < |ls| :: 0 < Level(ls[i].op) <= k }

  lemma BareConcat(a: seq<Link>, b: seq<Link>)
    ensures Bare(a + b) == Bare(a) + Bare(b)
  {
  }

  /** The links are cut in front of the first one that is not tighter. */
  lemma Cut(k: nat, ls: seq<Link>)
    requires k > 0 && Between(k, ls)
    ensures var n := Tighter(k, ls);
      && Between(k - 1, ls[..n]) && Between(k, ls[n..]) && (ls[n..] != [] ==> Level(ls[n..][0].op) == k)
      && ls == ls[..n] + ls[n..]
  {
  }

  lemma {:induction false} TreeKeeps(k: nat, e: Exp, ls: seq<Link>)
    requires Between(k, ls)
    ensures Precedence(Tree(k, e, ls)) && AtMost(k, Tree(k, e, ls))
    ensures First(Tree(k, e, ls)) == e && InOrder(Tree(k, e, ls)) == Bare(ls)
    decreases |ls|, k, 1
  {
    hide Bare, Precedence, First, InOrder, FoldSyntax, Pairs, InOrderPairs, Tighter, Between, Tight, Tree, Level,
      AtMost;
    if k > 0 {
      TreeUnfold(k, e, ls);
      var n := Tighter(k, ls);
      Cut(k, ls);
      TreeKeeps(k - 1, e, ls[..n]);
      PairsKeep(k, ls[n..]);
      AtMostMore(k, Tree(k - 1, e, ls[..n]));
      FoldKeeps(k, Tree(k - 1, e, ls[..n]), Pairs(k, ls[n..]));
      BareConcat(ls[..n], ls[n..]);
    } else {
      if ls != [] { NoLinks(ls); }
      LeafKeeps(e);
    }
  }

  lemma AtMostMore(k: nat, t: Syntax)
    requires k > 0 && AtMost(k - 1, t)
    ensures AtMost(k, t)
  {
  }

  lemma LeafKeeps(e: Exp)
    ensures Tree(0, e, []) == Leaf(e) && Precedence(Leaf(e)) && AtMost(0, Leaf(e)) && First(Leaf(e)) == e
    ensures InOrder(Leaf(e)) == Bare([])
  {
  }

  lemma NoLinks(ls: seq<Link>)
    requires ls != []
    ensures !Between(0, ls)
  {
    var op := ls[0].op;
    assert !(0 < Level(op) <= 0);
  }

  lemma TreeUnfold(k: nat, e: Exp, ls: seq<Link>)
    requires k > 0
    ensures var n := Tighter(k, ls); Tree(k, e, ls) == FoldSyntax(Tree(k - 1, e, ls[..n]), Pairs(k, ls[n..]))
  {
    hide FoldSyntax, Pairs, Tighter;
  }

  lemma PairsUnfold(k: nat, ls: seq<Link>)
    requires k > 0 && ls != []
    ensures var more := ls[1..];
      var n := Tighter(k, more);
      Pairs(k, ls) == [(ls[0].op, Tree(k - 1, ls[0].e, more[..n]))] + Pairs(k, more[n..])
  {
    hide Tree, Tighter;
  }

  lemma NoPairs(k: nat)
    requires k > 0
    ensures Pairs(k, []) == [] && Tight(k, []) && InOrderPairs([]) == [] && Bare([]) == []
  {
  }

  lemma PairsMore(k: nat, op: Op, t: Syntax, ps: seq<(Op, Syntax)>)
    requires Tight(k, ps) && Level(op) == k && k > 0 && Precedence(t) && AtMost(k - 1, t)
    ensures Tight(k, [(op, t)] + ps)
    ensures InOrderPairs([(op, t)] + ps) == [(op, First(t))] + InOrder(t) + InOrderPairs(ps)
  {
    hide InOrder, First, Precedence;
    assert ([(op, t)] + ps)[1..] == ps;
  }

  lemma {:induction false} PairsKeep(k: nat, ls: seq<Link>)
    requires k > 0 && Between(k, ls) && (ls != [] ==> Level(ls[0].op) == k)
    ensures Tight(k, Pairs(k, ls)) && InOrderPairs(Pairs(k, ls)) == Bare(ls)
    decreases |ls|, k, 0
  {
    hide Bare, Precedence, First, InOrder, Pairs, InOrderPairs, Tighter, Tight, Tree, Level, AtMost;
    NoPairs(k);
    if ls != [] {
      var more := ls[1..];
      var n := Tighter(k, more);
      Cut(k, more);
      PairsUnfold(k, ls);
      TreeKeeps(k - 1, ls[0].e, more[..n]);
      PairsKeep(k, more[n..]);
      PairsMore(k, ls[0].op, Tree(k - 1, ls[0].e, more[..n]), Pairs(k, more[n..]));
      BareConcat(more[..n], more[n..]);
      BareCons(ls);
    }
  }

  lemma BareCons(ls: seq<Link>)
    requires ls != []
    ensures Bare(ls) == [(ls[0].op, ls[0].e)] + Bare(ls[1..])
  {
  }

  lemma PrecedenceBelow(t: Syntax)
    requires Precedence(t) && t.Node?
    ensures Precedence(t.l) && (t.l.Node? ==> Level(t.l.op) <= Level(t.op))
    ensures Precedence(t.r) && (t.r.Node? ==> Level(t.r.op) < Level(t.op))
  {
    hide Level;
  }

  lemma InOrderAround(t: Syntax)
    requires t.Node?
    ensures var s, a := InOrder(t), |InOrder(t.l)|;
      && |s| == a + 1 + |InOrder(t.r)| && s[a] == (t.op, First(t.r))
      && s[..a] == InOrder(t.l) && s[a + 1..] == InOrder(t.r)
    ensures (t.l.Leaf? ==> InOrder(t.l) == []) && (t.r.Leaf? ==> InOrder(t.r) == [])
  {
    hide First;
    assert InOrder(t) == InOrder(t.l) + [(t.op, First(t.r))] + InOrder(t.r);
  }

  /** Where the root stands: up to there no operator is looser, and behind it all are tighter. */
  lemma {:induction false} RootPlace(t: Syntax)
    requires Precedence(t) && t.Node?
    ensures var s, a := InOrder(t), |InOrder(t.l)|;
      && a < |s| && s[a] == (t.op, First(t.r)) && s[..a] == InOrder(t.l) && s[a + 1..] == InOrder(t.r)
      && (forall i | 0 <= i <= a :: Level(s[i].0) <= Level(t.op))
      && (forall i | a < i < |s| :: Level(s[i].0) < Level(t.op))
  {
    hide InOrder, Precedence, First, Level;
    PrecedenceBelow(t);
    InOrderAround(t);
    if t.l.Node? { RootPlace(t.l); }
    if t.r.Node? { RootPlace(t.r); }
    var s, a := InOrder(t), |InOrder(t.l)|;
    forall i | 0 <= i <= a ensures Level(s[i].0) <= Level(t.op) { if i < a { assert s[i] == InOrder(t.l)[i]; } }
    forall i | a < i < |s| ensures Level(s[i].0) < Level(t.op) { assert s[i] == InOrder(t.r)[i - a - 1]; }
  }

  /** The order of the operands and precedence determine the tree. */
  lemma {:induction false} PrecedenceIsUnique(t: Syntax, u: Syntax)
    requires Precedence(t) && Precedence(u) && First(t) == First(u) && InOrder(t) == InOrder(u)
    ensures t == u
  {
    if t.Node? && u.Node? {
      RootPlace(t);
      RootPlace(u);
      assert |InOrder(t.l)| == |InOrder(u.l)|;
      PrecedenceIsUnique(t.l, u.l);
      PrecedenceIsUnique(t.r, u.r);
    }
  }

  // ----- printing and parsing are inverse -----

  /** No operator of level `k` or tighter follows. */
  predicate NoOp(k: nat, rest: string) { forall j | 0 <= j <= k :: ParseOp(j, rest).None? }

  lemma {:induction false} SkipBlank(gap: string, s: string)
    requires Blank(gap)
    ensures Skip(gap + s) == Skip(s)
  {
    if gap != "" {
      assert (gap + s)[0] == gap[0] && (gap + s)[1..] == gap[1..] + s;
      SkipBlank(gap[1..], s);
    } else {
      assert gap + s == s;
    }
  }

  lemma {:induction false} IdentSpan(x: string, rest: string)
    requires (forall i | 0 <= i < |x| :: IdentChar(x[i])) && (rest != "" ==> !IdentChar(rest[0]))
    ensures IdentLen(x + rest) == |x|
  {
    if x != "" {
      assert (x + rest)[0] == x[0] && (x + rest)[1..] == x[1..] + rest;
      IdentSpan(x[1..], rest);
    } else {
      assert x + rest == rest;
    }
  }

  lemma {:induction false} NumSpan(x: string, rest: string)
    requires (forall i | 0 <= i < |x| :: IsDigit(x[i])) && (rest != "" ==> !IdentChar(rest[0]) && rest[0] != '.')
    ensures NumLen(x + rest) == |x|
  {
    if x != "" {
      assert (x + rest)[0] == x[0] && (x + rest)[1..] == x[1..] + rest;
      NumSpan(x[1..], rest);
    } else {
      assert x + rest == rest;
    }
  }

  lemma {:induction false} NatRoundTrip(n: nat)
    ensures NatOf(NatToStr(n)) == n && NatToStr(n) != "" && forall i | 0 <= i < |NatToStr(n)| :: IsDigit(NatToStr(n)[i])
  {
    DigitValue(n % 10);
    if n >= 10 {
      NatRoundTrip(n / 10);
      assert NatToStr(n)[..|NatToStr(n)| - 1] == NatToStr(n / 10);
    } else {
      assert NatToStr(n)[..0] == "";
    }
  }

  lemma DigitValue(d: nat)
    requires d < 10
    ensures IsDigit(Digit(d)) && (Digit(d) - '0') as nat == d
  {
  }

  /** The operator in front is the one parsed, at its own level. */
  lemma OpParses(j: nat, gap: string, op: Op, s: string)
    requires Blank(gap) && !op.And? && !Head(s, '=')
    ensures ParseOp(j, gap + OpToStr(op) + s) == if j == Level(op) then Some(ParsedOp(op, s)) else None
  {
    hide Skip;
    var text := OpToStr(op) + s;
    assert gap + OpToStr(op) + s == gap + text;
    SkipBlank(gap, text);
    NothingToSkip(text);
    assert text[|OpToStr(op)|..] == s;
    if |OpToStr(op)| == 1 { assert text[1..] == s; } else { assert text[1] == OpToStr(op)[1] && text[2..] == s; }
  }

  lemma TextStarts(text: string, e: Exp)
    requires Reads(text, e)
    ensures text != "" && !Space(text[0]) && text[0] != '='
  {
  }

  lemma AtomSkips(gap: string, s: string)
    requires Blank(gap)
    ensures ParseAtom(gap + s) == ParseAtom(s)
  {
    hide ParseLevel, IdentLen, NumLen, NatOf;
    SkipBlank(gap, s);
    SkipTwice(s);
  }

  lemma {:induction false} SkipTwice(s: string)
    ensures Skip(s) != "" ==> !Space(Skip(s)[0])
  {
    if s != "" && Space(s[0]) { SkipTwice(s[1..]); }
  }

  lemma {:induction false} TailConcat(a: seq<Link>, b: seq<Link>)
    ensures TailText(a + b) == TailText(a) + TailText(b)
  {
    hide TreeToStr;
    if a == [] {
      assert a + b == b;
    } else {
      assert (a + b)[0] == a[0] && (a + b)[1..] == a[1..] + b;
      TailConcat(a[1..], b);
    }
  }

  /** The text of a chain's tail: operator, operand and the rest. */
  lemma TailCons(ls: seq<Link>, rest: string)
    requires ls != []
    ensures TailText(ls) + rest
      == ls[0].before + OpToStr(ls[0].op) + (ls[0].after + ls[0].text + (TailText(ls[1..]) + rest))
    ensures |TailText(ls)|
      == |ls[0].before| + |OpToStr(ls[0].op)| + |ls[0].after| + |ls[0].text| + |TailText(ls[1..])|
    ensures |OpToStr(ls[0].op)| > 0
  {
    hide TreeToStr, OpToStr;
    OpText(ls[0].op);
  }

  lemma OpText(op: Op)
    ensures OpToStr(op) != ""
    ensures (!op.And?
      ==> !Space(OpToStr(op)[0]) && !IdentChar(OpToStr(op)[0]) && OpToStr(op)[0] != '.' && OpToStr(op)[0] != '[')
  {
  }

  /** An atom ends in front of a chain's tail, and no operator of a tighter level follows. */
  lemma TailStops(k: nat, ls: seq<Link>, rest: string)
    requires 0 < k <= 3 && GoodLinks(k, ls) && (ls != [] ==> Level(ls[0].op) == k) && Stops(rest) && NoOp(k, rest)
    ensures Stops(TailText(ls) + rest) && NoOp(k - 1, TailText(ls) + rest)
    ensures ls != [] ==> !Head(ls[0].after + ls[0].text + (TailText(ls[1..]) + rest), '=')
  {
    hide ParseOp, Reads, OpToStr, TailText, IdentChar;
    if ls == [] {
      EmptyTail(rest);
    } else {
      var l := ls[0];
      assert GoodLink(k, l);
      TailCons(ls, rest);
      TextStarts(l.text, l.e);
      var after := l.after + l.text + (TailText(ls[1..]) + rest);
      assert after[0] == if l.after != "" then l.after[0] else l.text[0];
      assert !Head(after, '=');
      forall j | 0 <= j <= k - 1 ensures ParseOp(j, TailText(ls) + rest).None? { OpParses(j, l.before, l.op, after); }
      OpText(l.op);
      var text := OpToStr(l.op) + after;
      assert l.before + OpToStr(l.op) + after == l.before + text;
      SkipBlank(l.before, text);
      if l.before != "" { SpaceStops(l.before[0]); }
    }
  }

  lemma SpaceStops(c: char)
    requires Space(c)
    ensures !IdentChar(c) && c != '.'
  {
  }

  lemma EmptyTail(rest: string)
    ensures TailText([]) == "" && TailText([]) + rest == rest
  {
  }

  lemma {:induction false} ChainParses(k: nat, gap: string, text: string, e: Exp, ls: seq<Link>, rest: string)
    requires k <= 3 && Blank(gap) && Reads(text, e) && GoodLinks(k, ls) && Stops(rest) && NoOp(k, rest)
    ensures ParseLevel(k, gap + text + (TailText(ls) + rest)) == Some(Parsed(Plainly(Tree(k, e, ls)), rest))
    decreases |ls|, k + 1
  {
    hide TailText, Tree, Plainly, Pairs, Tighter, Reads, Stops, NoOp, Blank, ParseAtom, ParseTail, ParseLevel, Fold,
      Level;
    LevelUnfold(k, gap + text + (TailText(ls) + rest));
    if k == 0 {
      ChainOfOne(e, ls);
      EmptyTail(rest);
      AtomParses(text, e, gap, rest);
    } else {
      var n := Tighter(k, ls);
      CutGood(k, ls);
      TailConcat(ls[..n], ls[n..]);
      TailStops(k, ls[n..], rest);
      ChainParses(k - 1, gap, text, e, ls[..n], TailText(ls[n..]) + rest);
      assert TailText(ls) + rest == TailText(ls[..n]) + (TailText(ls[n..]) + rest);
      TailParses(k, ls[n..], rest);
      TreeUnfold(k, e, ls);
      FoldPlainly(Tree(k - 1, e, ls[..n]), Pairs(k, ls[n..]));
    }
  }

  lemma AtomParses(text: string, e: Exp, gap: string, rest: string)
    requires Reads(text, e) && Blank(gap) && Stops(rest)
    ensures ParseAtom(gap + text + rest) == Some(Parsed(e, rest))
  {
    hide ParseAtom, Blank, Stops;
    assert gap + text + rest == gap + (text + rest);
    AtomSkips(gap, text + rest);
  }

  lemma LevelUnfold(k: nat, s: string)
    ensures ParseLevel(k, s) ==
      if k == 0 then ParseAtom(s)
      else if ParseLevel(k - 1, s).None? then None
      else
        var first := ParseLevel(k - 1, s).value;
        var tail := ParseTail(k, first.rest);
        Some(Parsed(Fold(first.e, tail.pairs), tail.rest))
  {
    hide ParseAtom, ParseTail, Fold;
  }

  lemma ChainOfOne(e: Exp, ls: seq<Link>)
    requires GoodLinks(0, ls)
    ensures ls == [] && Tree(0, e, ls) == Leaf(e) && Plainly(Leaf(e)) == e
  {
    if ls != [] { NoGoodLinks(ls); }
  }

  lemma NoGoodLinks(ls: seq<Link>)
    requires ls != []
    ensures !GoodLinks(0, ls)
  {
    var l := ls[0];
    assert !GoodLink(0, l);
  }

  lemma CutGood(k: nat, ls: seq<Link>)
    requires 0 < k <= 3 && GoodLinks(k, ls)
    ensures var n := Tighter(k, ls);
      && GoodLinks(k - 1, ls[..n]) && GoodLinks(k, ls[n..]) && (ls[n..] != [] ==> Level(ls[n..][0].op) == k)
      && ls == ls[..n] + ls[n..]
  {
    hide Blank, Reads, Level;
    var n := Tighter(k, ls);
    forall i | 0 <= i < n ensures GoodLink(k - 1, ls[i]) { assert GoodLink(k, ls[i]); }
    if n < |ls| { assert GoodLink(k, ls[n]); }
  }

  lemma {:induction false} TailParses(k: nat, ls: seq<Link>, rest: string)
    requires 0 < k <= 3 && GoodLinks(k, ls) && (ls != [] ==> Level(ls[0].op) == k) && Stops(rest) && NoOp(k, rest)
    ensures ParseTail(k, TailText(ls) + rest) == Tail(PlainPairs(Pairs(k, ls)), rest)
    decreases |ls|, k
  {
    hide TailText, Tree, Plainly, PlainPairs, Pairs, Tighter, Reads, Stops, Blank, ParseAtom, ParseTail, ParseLevel,
      ParseOp, OpToStr, Level;
    TailUnfold(k, TailText(ls) + rest);
    if ls == [] {
      EmptyTail(rest);
      NoPairs(k);
      NoPlainPairs();
    } else {
      var l := ls[0];
      var more := ls[1..];
      assert GoodLink(k, l);
      assert GoodLinks(k, more) by {
        forall i | 0 <= i < |more| ensures GoodLink(k, more[i]) { assert more[i] == ls[i + 1]; }
      }
      TailStops(k, ls, rest);
      TailCons(ls, rest);
      NotAnd(l.op, k);
      OpParses(k, l.before, l.op, l.after + l.text + (TailText(more) + rest));
      var n := Tighter(k, more);
      CutGood(k, more);
      TailConcat(more[..n], more[n..]);
      assert TailText(more) + rest == TailText(more[..n]) + (TailText(more[n..]) + rest);
      TailStops(k, more[n..], rest);
      ChainParses(k - 1, l.after, l.text, l.e, more[..n], TailText(more[n..]) + rest);
      TailParses(k, more[n..], rest);
      PairsUnfold(k, ls);
      PlainCons(l.op, Tree(k - 1, l.e, more[..n]), Pairs(k, more[n..]));
    }
  }

  lemma NotAnd(op: Op, k: nat)
    requires Level(op) <= k <= 3
    ensures !op.And?
  {
  }

  lemma NoPlainPairs()
    ensures PlainPairs([]) == []
  {
  }

  lemma PlainCons(op: Op, t: Syntax, ps: seq<(Op, Syntax)>)
    ensures PlainPairs([(op, t)] + ps) == [(op, Plainly(t))] + PlainPairs(ps)
  {
    assert ([(op, t)] + ps)[1..] == ps;
  }

  lemma TailUnfold(k: nat, s: string)
    requires k > 0
    ensures ParseTail(k, s) ==
      if ParseOp(k, s).None? then Tail([], s)
      else
        var op := ParseOp(k, s).value;
        var operand := ParseLevel(k - 1, op.rest);
        if operand.None? then Tail([], s)
        else
          Tail([(op.op, operand.value.e)] + ParseTail(k, operand.value.rest).pairs,
               ParseTail(k, operand.value.rest).rest)
  {
    hide ParseOp, ParseLevel;
  }

  // ----- atoms -----

  /** A chain in brackets, with any whitespace behind the opening and in front of the closing one. */
  function Bracketed(open: char, gap: string, text: string, ls: seq<Link>, close: string, c: char): string {
    [open] + (gap + text + (TailText(ls) + (close + [c])))
  }

  lemma BracketEnds(close: string, c: char, rest: string)
    requires Blank(close) && (c == ']' || c == ')')
    ensures Stops(close + ([c] + rest)) && NoOp(3, close + ([c] + rest)) && Skip(close + ([c] + rest)) == [c] + rest
  {
    hide IdentChar, Skip;
    var s := [c] + rest;
    NothingToSkip(s);
    SkipBlank(close, s);
    assert !IdentChar(c) by { IdentCharIsNot(c); }
    if close != "" {
      assert (close + s)[0] == close[0];
      SpaceStops(close[0]);
    } else {
      assert close + s == s;
    }
  }

  lemma IdentCharIsNot(c: char)
    requires c == ']' || c == ')'
    ensures !IdentChar(c)
  {
  }

  /** The chain in the brackets is read to its end. */
  lemma InBrackets(gap: string, text: string, e: Exp, ls: seq<Link>, close: string, c: char, rest: string)
    requires Blank(gap) && Blank(close) && (c == ']' || c == ')') && Reads(text, e) && GoodLinks(3, ls)
    ensures ParseLevel(3, gap + text + (TailText(ls) + (close + ([c] + rest))))
      == Some(Parsed(Plainly(Tree(3, e, ls)), close + ([c] + rest)))
  {
    hide Blank, Reads, ParseLevel, TailText, Tree, Plainly, Stops, NoOp, Skip, GoodLinks;
    BracketEnds(close, c, rest);
    ChainParses(3, gap, text, e, ls, close + ([c] + rest));
  }

  lemma BracketText(open: char, gap: string, text: string, ls: seq<Link>, close: string, c: char, rest: string)
    ensures Bracketed(open, gap, text, ls, close, c) + rest
      == [open] + (gap + text + (TailText(ls) + (close + ([c] + rest))))
  {
    hide TailText;
    var t := TailText(ls);
    assert close + [c] + rest == close + ([c] + rest);
    assert t + (close + [c]) + rest == t + (close + [c] + rest);
    assert gap + text + (t + (close + [c])) + rest == gap + text + (t + (close + [c]) + rest);
  }

  /** A chain in parentheses is an atom, whatever the whitespace inside. */
  lemma ParenthesesRead(gap: string, text: string, e: Exp, ls: seq<Link>, close: string)
    requires Blank(gap) && Blank(close) && Reads(text, e) && GoodLinks(3, ls)
    ensures Reads(Bracketed('(', gap, text, ls, close, ')'), Plainly(Tree(3, e, ls)))
  {
    hide Blank, ParseAtom, TailText, Tree, Plainly, Stops, Skip, GoodLinks;
    var s := Bracketed('(', gap, text, ls, close, ')');
    forall rest | Stops(rest) ensures ParseAtom(s + rest) == Some(Parsed(Plainly(Tree(3, e, ls)), rest)) {
      InBrackets(gap, text, e, ls, close, ')', rest);
      BracketText('(', gap, text, ls, close, ')', rest);
      BracketEnds(close, ')', rest);
      InParentheses(gap + text + (TailText(ls) + (close + (")" + rest))), Plainly(Tree(3, e, ls)),
                    close + (")" + rest), rest);
    }
  }

  lemma InParentheses(inner: string, e: Exp, tail: string, rest: string)
    requires ParseLevel(3, inner) == Some(Parsed(e, tail)) && Skip(tail) == ")" + rest
    ensures ParseAtom("(" + inner) == Some(Parsed(e, rest))
  {
    hide ParseLevel, IdentLen, NumLen, NatOf, Skip;
    NothingToSkip("(" + inner);
    assert ("(" + inner)[1..] == inner && (")" + rest)[1..] == rest;
  }

  /** A name with a chain in brackets is an atom, whatever the whitespace. */
  lemma AccessReads(a: string, before: string, gap: string, text: string, e: Exp, ls: seq<Link>, close: string)
    requires Identifier(a) && Blank(before) && Blank(gap) && Blank(close) && Reads(text, e) && GoodLinks(3, ls)
    ensures Reads(a + (before + Bracketed('[', gap, text, ls, close, ']')), Arr(Var(a), Plainly(Tree(3, e, ls))))
  {
    hide Blank, ParseAtom, TailText, Tree, Plainly, Stops, Skip, GoodLinks, Bracketed, ParseLevel;
    var b := Bracketed('[', gap, text, ls, close, ']');
    var s := a + (before + b);
    NameStarts(a);
    assert s[0] == a[0];
    forall rest | Stops(rest) ensures ParseAtom(s + rest) == Some(Parsed(Arr(Var(a), Plainly(Tree(3, e, ls))), rest)) {
      var inner := gap + text + (TailText(ls) + (close + ("]" + rest)));
      InBrackets(gap, text, e, ls, close, ']', rest);
      BracketText('[', gap, text, ls, close, ']', rest);
      BracketEnds(close, ']', rest);
      assert s + rest == a + (before + ("[" + inner));
      InIndex(a, before, inner, Plainly(Tree(3, e, ls)), close + ("]" + rest), rest);
    }
  }

  lemma NameStarts(a: string)
    requires Identifier(a)
    ensures a != "" && IdentStart(a[0]) && !Space(a[0]) && a[0] != '='
  {
  }

  lemma InIndex(a: string, before: string, inner: string, loc: Exp, tail: string, rest: string)
    requires Identifier(a) && Blank(before) && ParseLevel(3, inner) == Some(Parsed(loc, tail))
    requires Skip(tail) == "]" + rest
    ensures ParseAtom(a + (before + ("[" + inner))) == Some(Parsed(Arr(Var(a), loc), rest))
  {
    hide ParseLevel, ParseAtom, IdentLen, NumLen, NatOf, Skip, Blank, IdentChar;
    var after := before + ("[" + inner);
    var s := a + after;
    NameStarts(a);
    assert s[0] == a[0];
    NothingToSkip(s);
    GapThenBracket(before, inner);
    IdentSpan(a, after);
    assert s[..|a|] == a && s[|a|..] == after;
    assert ("[" + inner)[1..] == inner && ("]" + rest)[1..] == rest;
    IndexedName(s, a, inner, loc, tail);
  }

  lemma GapThenBracket(before: string, inner: string)
    requires Blank(before)
    ensures var after := before + ("[" + inner); after != "" && !IdentChar(after[0]) && Skip(after) == "[" + inner
  {
    hide Skip;
    SkipBlank(before, "[" + inner);
    NothingToSkip("[" + inner);
    if before != "" { SpaceStops(before[0]); }
  }

  // ----- printed expressions are atoms -----

  lemma {:induction false} PrintedReads(e: Exp)
    requires Printable(e)
    ensures Reads(TreeToStr(e), e)
  {
    hide ParseAtom, ParseLevel, Blank, TailText, Tree, GoodLinks, GoodLink, Reads, Bracketed, Plainly;
    NoGap();
    match e
    case Var(x) => NameReads(x);
    case Num(i) => NumberReads(i);
    case Arr(a, loc) =>
      PrintedReads(loc);
      NoLink(loc);
      AccessReads(a.name, "", "", TreeToStr(loc), loc, [], "");
      AccessText(a.name, loc);
    case Bin(l, op, r) =>
      PrintedReads(l);
      PrintedReads(r);
      OneLink(l, op, r);
      ParenthesesRead("", TreeToStr(l), l, [Link(" ", op, " ", TreeToStr(r), r)], "");
      OperationText(l, op, r);
  }

  lemma NameReads(x: string)
    requires Identifier(x)
    ensures Reads(TreeToStr(Var(x)), Var(x))
  {
    hide ParseAtom, Stops;
    NameStarts(x);
    forall rest | Stops(rest) ensures ParseAtom(x + rest) == Some(Parsed(Var(x), rest)) { VarParses(x, rest); }
  }

  lemma NumberReads(i: nat)
    ensures Reads(TreeToStr(Num(i)), Num(i))
  {
    hide ParseAtom, Stops, NatToStr, NatOf;
    NatRoundTrip(i);
    forall rest | Stops(rest) ensures ParseAtom(IntToStr(i) + rest) == Some(Parsed(Num(i), rest)) {
      NumParses(i, rest);
    }
  }

  lemma AccessText(a: string, loc: Exp)
    ensures TreeToStr(Arr(Var(a), loc)) == a + ("" + Bracketed('[', "", TreeToStr(loc), [], "", ']'))
  {
    ArrText(a, loc);
    assert "" + TreeToStr(loc) + ("" + ("" + "]")) == TreeToStr(loc) + "]";
    assert a + "[" + TreeToStr(loc) + "]" == a + ("[" + (TreeToStr(loc) + "]"));
  }

  lemma OperationText(l: Exp, op: Op, r: Exp)
    ensures TreeToStr(Bin(l, op, r))
      == Bracketed('(', "", TreeToStr(l), [Link(" ", op, " ", TreeToStr(r), r)], "", ')')
  {
    hide TreeToStr, OpToStr, TailText;
    OneLinkText(op, r);
    BinIs(l, op, r);
    var t := " " + OpToStr(op) + " " + TreeToStr(r);
    assert "" + TreeToStr(l) + (t + ("" + ")")) == TreeToStr(l) + (t + ")");
    assert "(" + TreeToStr(l) + " " + OpToStr(op) + " " + TreeToStr(r) + ")" == "(" + (TreeToStr(l) + (t + ")"));
  }

  lemma BinIs(l: Exp, op: Op, r: Exp)
    ensures TreeToStr(Bin(l, op, r)) == "(" + TreeToStr(l) + " " + OpToStr(op) + " " + TreeToStr(r) + ")"
  {
    hide OpToStr;
  }

  lemma OneLinkText(op: Op, r: Exp)
    ensures TailText([Link(" ", op, " ", TreeToStr(r), r)]) == " " + OpToStr(op) + " " + TreeToStr(r)
  {
    hide TreeToStr, OpToStr;
    var ls := [Link(" ", op, " ", TreeToStr(r), r)];
    assert ls[1..] == [];
  }

  lemma NoGap()
    ensures Blank("")
  {
  }

  lemma NoLink(e: Exp)
    ensures GoodLinks(3, []) && Plainly(Tree(3, e, [])) == e
  {
    TreeKeeps(3, e, []);
    PrecedenceIsUnique(Tree(3, e, []), Leaf(e));
  }

  lemma VarParses(x: string, rest: string)
    requires Identifier(x) && Stops(rest)
    ensures ParseAtom(x + rest) == Some(Parsed(Var(x), rest))
  {
    hide ParseLevel, IdentLen, NumLen, NatOf;
    var s := x + rest;
    assert s[0] == x[0];
    assert Skip(s) == s;
    IdentSpan(x, rest);
    assert s[..|x|] == x && s[|x|..] == rest;
  }

  lemma NumParses(i: nat, rest: string)
    requires Stops(rest)
    ensures ParseAtom(IntToStr(i) + rest) == Some(Parsed(Num(i), rest))
  {
    hide ParseLevel, IdentLen, NumLen, NatOf, NatToStr;
    NatRoundTrip(i);
    var x := NatToStr(i);
    var s := x + rest;
    assert s[0] == x[0];
    assert Skip(s) == s;
    NumSpan(x, rest);
    assert s[..|x|] == x && s[|x|..] == rest;
  }

  lemma NothingToSkip(s: string)
    requires s != "" && !Space(s[0])
    ensures Skip(s) == s
  {
  }

  lemma ArrText(a: string, loc: Exp)
    ensures TreeToStr(Arr(Var(a), loc)) == a + "[" + TreeToStr(loc) + "]"
  {
  }

  /** A name, an opening bracket, an index and a closing bracket. */
  lemma IndexedName(s: string, a: string, inner: string, loc: Exp, tail: string)
    requires s != "" && Skip(s) == s && IdentStart(s[0]) && IdentLen(s) == |a| <= |s|
    requires s[..|a|] == a && Head(Skip(s[|a|..]), '[') && Skip(s[|a|..])[1..] == inner
    requires ParseLevel(3, inner) == Some(Parsed(loc, tail)) && Head(Skip(tail), ']')
    ensures ParseAtom(s) == Some(Parsed(Arr(Var(a), loc), Skip(tail)[1..]))
  {
    hide ParseLevel, IdentLen, NumLen, NatOf, TreeToStr, Skip;
  }

  lemma OneLink(l: Exp, op: Op, r: Exp)
    requires !op.And? && Reads(TreeToStr(r), r)
    ensures var ls := [Link(" ", op, " ", TreeToStr(r), r)];
      GoodLinks(3, ls) && Plainly(Tree(3, l, ls)) == Bin(l, op, r)
  {
    hide Tree, TreeToStr, OpToStr, Reads;
    var ls := [Link(" ", op, " ", TreeToStr(r), r)];
    TreeKeeps(3, l, ls);
    var t := Node(Leaf(l), op, Leaf(r));
    assert InOrder(t) == Bare(ls);
    PrecedenceIsUnique(Tree(3, l, ls), t);
  }

  /** Parsing what was printed gives the expression back. */
  lemma ParsePrint(e: Exp)
    requires Printable(e)
    ensures ParseExpression(TreeToStr(e)) == Some(e)
  {
    hide ParseLevel, TreeToStr, Reads;
    EmptyTail("");
    PrintedReads(e);
    ChainParses(3, "", TreeToStr(e), e, [], "");
    NoLink(e);
    assert "" + TreeToStr(e) + (TailText([]) + "") == TreeToStr(e);
  }

  /** Hence different expressions have different texts. */
  lemma PrintingIsInjective(e: Exp, f: Exp)
    requires Printable(e) && Printable(f) && TreeToStr(e) == TreeToStr(f)
    ensures e == f
  {
    ParsePrint(e);
    ParsePrint(f);
  }

  /** A chain of operators without parentheses around them, with any whitespace in front, around the
      operators and behind, parses to the one tree that keeps the order of the operands and
      operators and respects precedence and associativity to the left. */
  lemma ChainsFollowPrecedence(gap: string, text: string, e: Exp, ls: seq<Link>, end: string, t: Syntax)
    requires Blank(gap) && Blank(end) && Reads(text, e) && GoodLinks(3, ls)
    requires First(t) == e && InOrder(t) == Bare(ls) && Precedence(t)
    ensures ParseExpression(gap + text + (TailText(ls) + end)) == Some(Plainly(t))
  {
    hide ParseLevel, Tree, TailText, Reads, Blank, NoOp, Stops;
    BlankEnds(end);
    ChainParses(3, gap, text, e, ls, end);
    assert forall i | 0 <= i < |ls| :: GoodLink(3, ls[i]);
    TreeKeeps(3, e, ls);
    PrecedenceIsUnique(Tree(3, e, ls), t);
  }

  lemma BlankEnds(end: string)
    requires Blank(end)
    ensures Stops(end) && NoOp(3, end)
  {
    hide Skip;
    SkipBlank(end, "");
    assert end + "" == end;
    SkipNothing();
    if end != "" { SpaceStops(end[0]); }
  }

  lemma SkipNothing()
    ensures Skip("") == ""
  {
  }

  /** There is such a tree for every chain. */
  lemma EveryChainHasItsTree(e: Exp, ls: seq<Link>) returns (t: Syntax)
    requires GoodLinks(3, ls)
    ensures First(t) == e && InOrder(t) == Bare(ls) && Precedence(t)
  {
    assert forall i | 0 <= i < |ls| :: GoodLink(3, ls[i]);
    TreeKeeps(3, e, ls);
    t := Tree(3, e, ls);
  }

  // ----- texts with any spacing and any parentheses -----

  /** An atom as somebody writes it down: names, numbers, accesses and parentheses, with whitespace
      between any two tokens. */
  datatype Atom =
    | Name(x: string)
    | Number(n: nat)
    | Access(a: string, before: string, index: Chain)
    | Parens(inner: Chain)

  datatype Chain = Chain(gap: string, first: Atom, more: seq<Step>, end: string)

  datatype Step = Step(before: string, op: Op, after: string, operand: Atom)

  predicate WellSpaced(w: Atom)
    decreases w
  {
    match w
    case Name(x) => Identifier(x)
    case Number(_) => true
    case Access(a, before, index) => Identifier(a) && Blank(before) && WellSpacedChain(index)
    case Parens(inner) => WellSpacedChain(inner)
  }

  predicate WellSpacedChain(c: Chain)
    decreases c
  {
    && Blank(c.gap) && WellSpaced(c.first) && Blank(c.end)
    && forall i | 0 <= i < |c.more| ::
         && Blank(c.more[i].before) && !c.more[i].op.And? && Blank(c.more[i].after) && WellSpaced(c.more[i].operand)
  }

  function AtomText(w: Atom): string
    decreases w
  {
    match w
    case Name(x) => x
    case Number(n) => NatToStr(n)
    case Access(a, before, c) => a + (before + Bracketed('[', c.gap, AtomText(c.first), LinksOf(c), c.end, ']'))
    case Parens(c) => Bracketed('(', c.gap, AtomText(c.first), LinksOf(c), c.end, ')')
  }

  /** What the atom means: operators in the order of precedence, associated to the left. */
  function AtomMeaning(w: Atom): Exp
    decreases w
  {
    match w
    case Name(x) => Var(x)
    case Number(n) => Num(n)
    case Access(a, _, c) => Arr(Var(a), Plainly(Tree(3, AtomMeaning(c.first), LinksOf(c))))
    case Parens(c) => Plainly(Tree(3, AtomMeaning(c.first), LinksOf(c)))
  }

  function LinksOf(c: Chain): (ls: seq<Link>)
    ensures |ls| == |c.more|
    decreases c
  {
    seq(|c.more|, i requires 0 <= i < |c.more| =>
      Link(c.more[i].before, c.more[i].op, c.more[i].after, AtomText(c.more[i].operand),
           AtomMeaning(c.more[i].operand)))
  }

  /** Every such text is read as what it means. */
  lemma {:induction false} AtomsRead(w: Atom)
    requires WellSpaced(w)
    ensures Reads(AtomText(w), AtomMeaning(w))
    decreases w
  {
    hide ParseAtom, ParseLevel, Blank, TailText, Tree, GoodLinks, GoodLink, Reads, Bracketed, Plainly, Identifier,
      LinksOf;
    match w
    case Name(x) => NameReads(x);
    case Number(n) => NumberReads(n);
    case Access(a, before, c) =>
      LinksRead(c);
      AccessReads(a, before, c.gap, AtomText(c.first), AtomMeaning(c.first), LinksOf(c), c.end);
    case Parens(c) =>
      LinksRead(c);
      ParenthesesRead(c.gap, AtomText(c.first), AtomMeaning(c.first), LinksOf(c), c.end);
  }

  lemma {:induction false} LinksRead(c: Chain)
    requires WellSpacedChain(c)
    ensures Reads(AtomText(c.first), AtomMeaning(c.first)) && GoodLinks(3, LinksOf(c))
    decreases c
  {
    hide Reads, AtomText, AtomMeaning, Blank, WellSpaced;
    AtomsRead(c.first);
    forall i | 0 <= i < |c.more| ensures GoodLink(3, LinksOf(c)[i]) {
      AtomsRead(c.more[i].operand);
      OpLevel(c.more[i].op);
    }
  }

  lemma OpLevel(op: Op)
    requires !op.And?
    ensures Level(op) <= 3
  {
  }

  function ChainText(c: Chain): string {
    c.gap + AtomText(c.first) + (TailText(LinksOf(c)) + c.end)
  }

  /** Every chain, with any whitespace and any parentheses, parses to its precedence tree. */
  lemma SpacedTextsParse(c: Chain, t: Syntax)
    requires WellSpacedChain(c)
    requires First(t) == AtomMeaning(c.first) && InOrder(t) == Bare(LinksOf(c)) && Precedence(t)
    ensures ParseExpression(ChainText(c)) == Some(Plainly(t))
  {
    hide Reads, AtomText, AtomMeaning, LinksOf, TailText, ParseExpression, Precedence, InOrder;
    LinksRead(c);
    ChainsFollowPrecedence(c.gap, AtomText(c.first), AtomMeaning(c.first), LinksOf(c), c.end, t);
  }
}
