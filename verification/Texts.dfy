/** The printed text of an expression determines it, augmented arrays included
    (backend/stencil_ir.py:40-66): what the name table of the Sketch backend relies on. */
module Texts {
  import opened StencilIr
  import opened Parser

  predicate IsArray(a: Exp, arrays: set<string>) { a.Aug? || (a.Var? && a.name in arrays) }

  /** Identifiers, numbers, operations, and reads and updates of the given arrays. */
  predicate Spelled(e: Exp, arrays: set<string>) {
    match e
    case Var(x) => Identifier(x)
    case Num(_) => true
    case Bin(l, _, r) => Spelled(l, arrays) && Spelled(r, arrays)
    case Arr(a, loc) => IsArray(a, arrays) && Spelled(a, arrays) && Spelled(loc, arrays)
    case Aug(a, k, v) => IsArray(a, arrays) && Spelled(a, arrays) && Spelled(k, arrays) && Spelled(v, arrays)
    case _ => false
  }

  /** The same and, when `logic` is set, the formulas over them; a variable is then not called like
      the constant. */
  predicate Readable(e: Exp, arrays: set<string>, logic: bool) {
    match e
    case True => logic
    case Var(x) => Identifier(x) && (logic ==> x != "true")
    case Num(_) => true
    case Bin(l, _, r) => Readable(l, arrays, logic) && Readable(r, arrays, logic)
    case Not(b) => logic && Readable(b, arrays, logic)
    case Arr(a, loc) => IsArray(a, arrays) && Readable(a, arrays, logic) && Readable(loc, arrays, logic)
    case Aug(a, k, v) =>
      && IsArray(a, arrays) && Readable(a, arrays, logic)
      && Readable(k, arrays, logic) && Readable(v, arrays, logic)
    case Call(f, ps) => logic && Identifier(f) && forall i | 0 <= i < |ps| :: Readable(ps[i], arrays, logic)
    case Implies(a, c) => logic && Readable(a, arrays, logic) && Readable(c, arrays, logic)
  }

  lemma {:induction false} SpelledIsReadable(e: Exp, arrays: set<string>)
    requires Spelled(e, arrays)
    ensures Readable(e, arrays, false)
  {
    match e
    case Bin(l, _, r) => SpelledIsReadable(l, arrays); SpelledIsReadable(r, arrays);
    case Arr(a, loc) => SpelledIsReadable(a, arrays); SpelledIsReadable(loc, arrays);
    case Aug(a, k, v) => SpelledIsReadable(a, arrays); SpelledIsReadable(k, arrays); SpelledIsReadable(v, arrays);
    case _ =>
  }

  /** What may follow an expression. */
  predicate Ends(r: string) {
    r != "" ==> !IdentChar(r[0]) && r[0] != '.' && r[0] != '[' && r[0] != '{' && r[0] != '('
  }

  // ----- a name and what is attached to it -----

  datatype Suffix = At(loc: Exp) | With(k: Exp, v: Exp) | Of(ps: seq<Exp>)

  predicate Named(e: Exp) { e.Var? || e.Arr? || e.Aug? || e.Call? || e.True? }

  function NameOf(e: Exp): string {
    match e
    case Var(x) => x
    case Arr(a, _) => NameOf(a)
    case Aug(a, _, _) => NameOf(a)
    case Call(f, _) => f
    case True => "true"
    case _ => ""
  }

  function Suffixes(e: Exp): seq<Suffix> {
    match e
    case Arr(a, loc) => Suffixes(a) + [At(loc)]
    case Aug(a, k, v) => Suffixes(a) + [With(k, v)]
    case Call(_, ps) => [Of(ps)]
    case _ => []
  }

  function SuffixText(s: Suffix): string {
    match s
    case At(loc) => "[" + TreeToStr(loc) + "]"
    case With(k, v) => "{" + TreeToStr(k) + ":=" + TreeToStr(v) + "}"
    case Of(ps) => "(" + ParamsToStr(ps) + ")"
  }

  function SuffixesText(ss: seq<Suffix>): string {
    if ss == [] then "" else SuffixText(ss[0]) + SuffixesText(ss[1..])
  }

  predicate ReadableSuffix(s: Suffix, arrays: set<string>, logic: bool) {
    match s
    case At(loc) => Readable(loc, arrays, logic)
    case With(k, v) => Readable(k, arrays, logic) && Readable(v, arrays, logic)
    case Of(ps) => ReadableAll(ps, arrays, logic)
  }

  predicate ReadableAll(ps: seq<Exp>, arrays: set<string>, logic: bool) {
    forall i | 0 <= i < |ps| :: Readable(ps[i], arrays, logic)
  }

  predicate ReadableSuffixes(ss: seq<Suffix>, arrays: set<string>, logic: bool) {
    forall i | 0 <= i < |ss| :: ReadableSuffix(ss[i], arrays, logic)
  }

  lemma {:induction false} SuffixesSnoc(ss: seq<Suffix>, s: Suffix)
    ensures SuffixesText(ss + [s]) == SuffixesText(ss) + SuffixText(s)
  {
    hide SuffixText;
    if ss == [] {
      assert [s][1..] == [];
    } else {
      assert (ss + [s])[0] == ss[0] && (ss + [s])[1..] == ss[1..] + [s];
      SuffixesSnoc(ss[1..], s);
    }
  }

  lemma {:induction false} NamedText(e: Exp, arrays: set<string>, logic: bool)
    requires Named(e) && Readable(e, arrays, logic)
    ensures Identifier(NameOf(e)) && ReadableSuffixes(Suffixes(e), arrays, logic)
    ensures TreeToStr(e) == NameOf(e) + SuffixesText(Suffixes(e))
  {
    hide TreeToStr, SuffixesText, SuffixText, Identifier;
    match e
    case Var(x) => BareName(x);
    case True => BareTrue();
    case Call(f, ps) => CallText(f, ps);
    case Arr(a, loc) =>
      NamedText(a, arrays, logic);
      Attached(a, e, At(loc));
    case Aug(a, k, v) =>
      NamedText(a, arrays, logic);
      Attached(a, e, With(k, v));
  }

  lemma BareName(x: string)
    ensures TreeToStr(Var(x)) == x + SuffixesText([])
  {
  }

  lemma BareTrue()
    ensures TreeToStr(True) == NameOf(True) + SuffixesText(Suffixes(True)) && Identifier("true")
  {
    assert IdentChar('t') && IdentChar('r') && IdentChar('u') && IdentChar('e');
  }

  lemma CallText(f: string, ps: seq<Exp>)
    ensures TreeToStr(Call(f, ps)) == f + SuffixesText([Of(ps)])
  {
    hide ParamsToStr;
    var ss := [Of(ps)];
    assert ss[1..] == [];
    assert f + "(" + ParamsToStr(ps) + ")" == f + ("(" + ParamsToStr(ps) + ")" + "");
  }

  lemma Attached(a: Exp, e: Exp, s: Suffix)
    requires !s.Of? && if s.At? then e == Arr(a, s.loc) else e == Aug(a, s.k, s.v)
    requires TreeToStr(a) == NameOf(a) + SuffixesText(Suffixes(a))
    ensures TreeToStr(e) == NameOf(a) + SuffixesText(Suffixes(a) + [s])
  {
    hide SuffixesText, SuffixText, TreeToStr, NameOf, Suffixes;
    SuffixesSnoc(Suffixes(a), s);
    OneSuffix(a, e, s);
  }

  lemma OneSuffix(a: Exp, e: Exp, s: Suffix)
    requires !s.Of? && if s.At? then e == Arr(a, s.loc) else e == Aug(a, s.k, s.v)
    ensures TreeToStr(e) == TreeToStr(a) + SuffixText(s)
  {
    hide TreeToStr, SuffixText;
    if s.At? { OneIndex(a, s.loc); } else { OneUpdate(a, s.k, s.v); }
  }

  lemma OneIndex(a: Exp, loc: Exp)
    ensures TreeToStr(Arr(a, loc)) == TreeToStr(a) + SuffixText(At(loc))
  {
    ThreeParts(TreeToStr(a), "[", TreeToStr(loc), "]");
  }

  lemma OneUpdate(a: Exp, k: Exp, v: Exp)
    ensures TreeToStr(Aug(a, k, v)) == TreeToStr(a) + SuffixText(With(k, v))
  {
    var x, y := TreeToStr(a), TreeToStr(k);
    ThreeParts(x, "{", y, ":=");
    ThreeParts(x, "{" + y + ":=", TreeToStr(v), "}");
  }

  lemma ThreeParts(x: string, open: string, y: string, close: string)
    ensures x + open + y + close == x + (open + y + close)
  {
  }

  lemma {:induction false} NameAndSuffixes(e: Exp, f: Exp, arrays: set<string>, logic: bool)
    requires Named(e) && Named(f) && Readable(e, arrays, logic) && Readable(f, arrays, logic)
    requires NameOf(e) == NameOf(f) && Suffixes(e) == Suffixes(f)
    ensures e == f
  {
    if e.Call? || e.True? || e.Var? {
      BareOrCalled(e, f, arrays, logic);
    } else {
      var n := |Suffixes(e)| - 1;
      assert Suffixes(e)[n] == Suffixes(f)[n] && Suffixes(e)[..n] == Suffixes(f)[..n];
      var a, b := if e.Arr? then e.arr else e.base, if f.Arr? then f.arr else f.base;
      assert Suffixes(e)[..n] == Suffixes(a) && Suffixes(f)[..n] == Suffixes(b);
      NameAndSuffixes(a, b, arrays, logic);
    }
  }

  lemma BareOrCalled(e: Exp, f: Exp, arrays: set<string>, logic: bool)
    requires Named(e) && Named(f) && Readable(e, arrays, logic) && Readable(f, arrays, logic)
    requires e.Call? || e.True? || e.Var?
    requires NameOf(e) == NameOf(f) && Suffixes(e) == Suffixes(f)
    ensures e == f
  {
    if f.Arr? || f.Aug? { LastSuffix(f); }
    if e.Call? && f.Call? { assert Suffixes(e)[0] == Suffixes(f)[0]; }
  }

  lemma LastSuffix(f: Exp)
    requires f.Arr? || f.Aug?
    ensures Suffixes(f) != [] && !Suffixes(f)[|Suffixes(f)| - 1].Of?
  {
  }

  // ----- unique readability -----

  lemma {:induction false} FirstChar(e: Exp, arrays: set<string>, logic: bool)
    requires Readable(e, arrays, logic)
    ensures TreeToStr(e) != ""
    ensures var c := TreeToStr(e)[0];
      if e.Bin? || e.Implies? then c == '(' else if e.Num? then IsDigit(c) || c == '-'
      else if e.Not? then c == '!' else IdentStart(c)
  {
    if e.Num? {
      NatRoundTrip(if e.val < 0 then -e.val else e.val);
    } else if !e.Bin? && !e.Implies? && !e.Not? {
      NamedText(e, arrays, logic);
      assert TreeToStr(e)[0] == NameOf(e)[0];
    }
  }

  lemma Front<T>(a: seq<T>, b: seq<T>, r: seq<T>, q: seq<T>)
    requires a + r == b + q && |a| == |b|
    ensures a == b && r == q
  {
    assert a == (a + r)[..|a|] && b == (b + q)[..|b|];
    assert r == (a + r)[|a|..] && q == (b + q)[|b|..];
  }

  lemma OpsDiffer(o: Op, p: Op, r: string, q: string)
    requires OpToStr(o) + (" " + r) == OpToStr(p) + (" " + q)
    ensures o == p && r == q
  {
    var a, b := OpToStr(o) + (" " + r), OpToStr(p) + (" " + q);
    assert a[0] == OpToStr(o)[0] && b[0] == OpToStr(p)[0];
    assert a[1] == if |OpToStr(o)| == 1 then ' ' else OpToStr(o)[1];
    assert b[1] == if |OpToStr(p)| == 1 then ' ' else OpToStr(p)[1];
    Front(OpToStr(o), OpToStr(p), " " + r, " " + q);
    Front(" ", " ", r, q);
  }

  lemma NaturalsDiffer(m: nat, n: nat, r: string, q: string)
    requires Ends(r) && Ends(q) && NatToStr(m) + r == NatToStr(n) + q
    ensures m == n && r == q
  {
    hide NatToStr, NatOf, NumLen, IdentChar;
    NatRoundTrip(m);
    NatRoundTrip(n);
    NumSpan(NatToStr(m), r);
    NumSpan(NatToStr(n), q);
    Front(NatToStr(m), NatToStr(n), r, q);
  }

  lemma Sign(i: int, r: string)
    ensures var m := if i < 0 then -i else i;
      && IntToStr(i) + r == (if i < 0 then "-" + (NatToStr(m) + r) else NatToStr(m) + r)
      && ((IntToStr(i) + r)[0] == '-' <==> i < 0)
  {
    hide NatToStr, NatOf;
    var m: nat := if i < 0 then -i else i;
    NatRoundTrip(m);
    assert (NatToStr(m) + r)[0] == NatToStr(m)[0];
  }

  lemma NumbersDiffer(i: int, j: int, r: string, q: string)
    requires Ends(r) && Ends(q) && IntToStr(i) + r == IntToStr(j) + q
    ensures i == j && r == q
  {
    hide NatToStr, IntToStr, Ends;
    var m, n: nat := if i < 0 then -i else i, if j < 0 then -j else j;
    Sign(i, r);
    Sign(j, q);
    if i < 0 { Front("-", "-", NatToStr(m) + r, NatToStr(n) + q); }
    NaturalsDiffer(m, n, r, q);
  }

  /** An expression in front of a text that ends it is read in one way. */
  lemma {:induction false} UniqueReading(e: Exp, f: Exp, r: string, q: string, arrays: set<string>, logic: bool)
    requires Readable(e, arrays, logic) && Readable(f, arrays, logic) && Ends(r) && Ends(q)
    requires TreeToStr(e) + r == TreeToStr(f) + q
    ensures e == f && r == q
    decreases |TreeToStr(e)|, 1
  {
    hide TreeToStr, Readable, SuffixesText, Suffixes, IntToStr, IdentChar;
    FirstChar(e, arrays, logic);
    FirstChar(f, arrays, logic);
    assert (TreeToStr(e) + r)[0] == TreeToStr(e)[0] && (TreeToStr(f) + q)[0] == TreeToStr(f)[0];
    Kinds(e, arrays, logic);
    Kinds(f, arrays, logic);
    IdentStartOnly(TreeToStr(e)[0]);
    match e
    case Num(i) => NumbersDiffer(i, f.val, r, q);
    case Bin(_, _, _) => UniqueInParens(e, f, r, q, arrays, logic);
    case Implies(_, _) => UniqueInParens(e, f, r, q, arrays, logic);
    case Not(_) => UniqueNot(e, f, r, q, arrays, logic);
    case _ => UniqueNamed(e, f, r, q, arrays, logic);
  }

  lemma Kinds(e: Exp, arrays: set<string>, logic: bool)
    requires Readable(e, arrays, logic)
    ensures e.Num? || e.Bin? || e.Implies? || e.Not? || Named(e)
    ensures e.Num? ==> TreeToStr(e) == IntToStr(e.val)
    ensures e.Bin? || e.Implies? ==>
      && Readable(Left(e), arrays, logic) && Readable(Right(e), arrays, logic)
      && |TreeToStr(Left(e))| < |TreeToStr(e)| && |TreeToStr(Right(e))| < |TreeToStr(e)|
    ensures e.Not? ==> Readable(e.ex, arrays, logic) && |TreeToStr(e.ex)| < |TreeToStr(e)|
  {
  }

  function Left(e: Exp): Exp
    requires e.Bin? || e.Implies?
  {
    if e.Bin? then e.left else e.ifx
  }

  function Right(e: Exp): Exp
    requires e.Bin? || e.Implies?
  {
    if e.Bin? then e.right else e.cons
  }

  /** What stands between the two parts. */
  function Between(e: Exp): string
    requires e.Bin? || e.Implies?
  {
    if e.Bin? then " " + (OpToStr(e.op) + " ") else ") -> ("
  }

  lemma IdentStartOnly(c: char)
    ensures IdentStart(c) ==> c != '(' && c != '-' && c != '!' && !IsDigit(c)
  {
  }

  lemma InParens(e: Exp, r: string)
    requires e.Bin? || e.Implies?
    ensures TreeToStr(e) + r == "(" + (TreeToStr(Left(e)) + (Between(e) + (TreeToStr(Right(e)) + (")" + r))))
    ensures Ends(Between(e) + (TreeToStr(Right(e)) + (")" + r)))
    ensures (Between(e) + (TreeToStr(Right(e)) + (")" + r)))[0] == if e.Bin? then ' ' else ')'
  {
    hide OpToStr, TreeToStr;
    var rest := TreeToStr(Right(e)) + (")" + r);
    if e.Bin? {
      BinText(e, r);
      assert " " + (OpToStr(e.op) + " ") + rest == " " + (OpToStr(e.op) + (" " + rest));
    } else {
      ImpliesText(e, r);
    }
  }

  lemma ImpliesText(e: Exp, r: string)
    requires e.Implies?
    ensures TreeToStr(e) + r == "(" + (TreeToStr(e.ifx) + (") -> (" + (TreeToStr(e.cons) + (")" + r))))
  {
    var a, c := TreeToStr(e.ifx), TreeToStr(e.cons);
    assert "(" + a + ") -> (" + c + ")" + r == "(" + (a + (") -> (" + (c + (")" + r))));
  }

  lemma {:induction false} UniqueInParens(e: Exp, f: Exp, r: string, q: string, arrays: set<string>, logic: bool)
    requires (e.Bin? || e.Implies?) && (f.Bin? || f.Implies?)
    requires Readable(e, arrays, logic) && Readable(f, arrays, logic) && Ends(r) && Ends(q)
    requires TreeToStr(e) + r == TreeToStr(f) + q
    ensures e == f && r == q
    decreases |TreeToStr(e)|, 0
  {
    hide Readable, TreeToStr, OpToStr, Between, Left, Right, Ends;
    Kinds(e, arrays, logic);
    Kinds(f, arrays, logic);
    InParens(e, r);
    InParens(f, q);
    var right, right' := TreeToStr(Right(e)) + (")" + r), TreeToStr(Right(f)) + (")" + q);
    Front("(", "(", TreeToStr(Left(e)) + (Between(e) + right), TreeToStr(Left(f)) + (Between(f) + right'));
    UniqueReading(Left(e), Left(f), Between(e) + right, Between(f) + right', arrays, logic);
    SameBetween(e, f, right, right');
    ClosersEnd(r);
    ClosersEnd(q);
    UniqueReading(Right(e), Right(f), ")" + r, ")" + q, arrays, logic);
    Front(")", ")", r, q);
    SameParts(e, f);
  }

  lemma SameBetween(e: Exp, f: Exp, right: string, right': string)
    requires (e.Bin? || e.Implies?) && (f.Bin? || f.Implies?) && e.Bin? == f.Bin?
    requires Between(e) + right == Between(f) + right'
    ensures right == right' && (e.Bin? ==> e.op == f.op)
  {
    hide OpToStr;
    if e.Bin? {
      Spaced(OpToStr(e.op), right);
      Spaced(OpToStr(f.op), right');
      Front(" ", " ", OpToStr(e.op) + (" " + right), OpToStr(f.op) + (" " + right'));
      OpsDiffer(e.op, f.op, right, right');
    } else {
      Front(") -> (", ") -> (", right, right');
    }
  }

  lemma Spaced(op: string, right: string)
    ensures " " + (op + " ") + right == " " + (op + (" " + right))
  {
  }

  lemma SameParts(e: Exp, f: Exp)
    requires (e.Bin? || e.Implies?) && (f.Bin? || f.Implies?) && e.Bin? == f.Bin? && (e.Bin? ==> e.op == f.op)
    requires Left(e) == Left(f) && Right(e) == Right(f)
    ensures e == f
  {
  }

  lemma {:induction false} UniqueNot(e: Exp, f: Exp, r: string, q: string, arrays: set<string>, logic: bool)
    requires e.Not? && f.Not? && Readable(e, arrays, logic) && Readable(f, arrays, logic)
    requires TreeToStr(e) + r == TreeToStr(f) + q
    ensures e == f && r == q
    decreases |TreeToStr(e)|, 0
  {
    hide Readable, TreeToStr, Ends;
    Kinds(e, arrays, logic);
    Kinds(f, arrays, logic);
    NotText(e, r);
    NotText(f, q);
    Front("!(", "!(", TreeToStr(e.ex) + (")" + r), TreeToStr(f.ex) + (")" + q));
    ClosersEnd(r);
    ClosersEnd(q);
    UniqueReading(e.ex, f.ex, ")" + r, ")" + q, arrays, logic);
    Front(")", ")", r, q);
  }

  lemma NotText(e: Exp, r: string)
    requires e.Not?
    ensures TreeToStr(e) + r == "!(" + (TreeToStr(e.ex) + (")" + r))
  {
    assert "!(" + TreeToStr(e.ex) + ")" + r == "!(" + (TreeToStr(e.ex) + (")" + r));
  }

  lemma BinText(e: Exp, r: string)
    requires e.Bin?
    ensures TreeToStr(e) + r
      == "(" + (TreeToStr(e.left) + (" " + (OpToStr(e.op) + (" " + (TreeToStr(e.right) + (")" + r))))))
  {
    hide OpToStr;
  }

  lemma {:induction false} UniqueNamed(e: Exp, f: Exp, r: string, q: string, arrays: set<string>, logic: bool)
    requires Named(e) && Named(f) && Readable(e, arrays, logic) && Readable(f, arrays, logic) && Ends(r) && Ends(q)
    requires TreeToStr(e) + r == TreeToStr(f) + q
    ensures e == f && r == q
    decreases |TreeToStr(e)|, 0
  {
    hide Readable, TreeToStr, IdentChar, IdentLen, SuffixesText;
    NamedText(e, arrays, logic);
    NamedText(f, arrays, logic);
    var a, b := SuffixesText(Suffixes(e)), SuffixesText(Suffixes(f));
    assert TreeToStr(e) + r == NameOf(e) + (a + r) && TreeToStr(f) + q == NameOf(f) + (b + q);
    AfterName(Suffixes(e), r);
    AfterName(Suffixes(f), q);
    IdentSpan(NameOf(e), a + r);
    IdentSpan(NameOf(f), b + q);
    Front(NameOf(e), NameOf(f), a + r, b + q);
    UniqueSuffixes(Suffixes(e), Suffixes(f), r, q, arrays, logic);
    NameAndSuffixes(e, f, arrays, logic);
  }

  /** A suffix starts with a bracket or a brace. */
  lemma AfterName(ss: seq<Suffix>, r: string)
    requires Ends(r)
    ensures var t := SuffixesText(ss) + r;
      && (t != "" ==> !IdentChar(t[0]))
      && (if ss == [] then t == r
          else t != "" && t[0] == match ss[0] case At(_) => '[' case With(_, _) => '{' case Of(_) => '(')
  {
    if ss != [] { assert SuffixesText(ss)[0] == SuffixText(ss[0])[0]; }
  }

  lemma {:induction false} UniqueSuffixes(ss: seq<Suffix>, ts: seq<Suffix>, r: string, q: string,
                                          arrays: set<string>, logic: bool)
    requires ReadableSuffixes(ss, arrays, logic) && ReadableSuffixes(ts, arrays, logic) && Ends(r) && Ends(q)
    requires SuffixesText(ss) + r == SuffixesText(ts) + q
    ensures ss == ts && r == q
    decreases |SuffixesText(ss)|, 0
  {
    hide SuffixesText, SuffixText, ReadableSuffix, IdentChar;
    AfterName(ss, r);
    AfterName(ts, q);
    if ss != [] {
      var s, t := ss[0], ts[0];
      var a, b := SuffixesText(ss[1..]) + r, SuffixesText(ts[1..]) + q;
      SuffixesCons(ss, r);
      SuffixesCons(ts, q);
      UniqueSuffix(s, t, a, b, arrays, logic);
      UniqueSuffixes(ss[1..], ts[1..], r, q, arrays, logic);
      assert ss == [s] + ss[1..] && ts == [t] + ts[1..];
    }
  }

  lemma SuffixesCons(ss: seq<Suffix>, r: string)
    requires ss != []
    ensures SuffixesText(ss) + r == SuffixText(ss[0]) + (SuffixesText(ss[1..]) + r)
    ensures |SuffixText(ss[0])| <= |SuffixesText(ss)| && |SuffixesText(ss[1..])| < |SuffixesText(ss)|
  {
    hide TreeToStr;
  }

  lemma {:induction false} UniqueSuffix(s: Suffix, t: Suffix, a: string, b: string, arrays: set<string>, logic: bool)
    requires ReadableSuffix(s, arrays, logic) && ReadableSuffix(t, arrays, logic)
    requires s.At? == t.At? && s.With? == t.With?
    requires SuffixText(s) + a == SuffixText(t) + b
    ensures s == t && a == b
    decreases |SuffixText(s)|, -1
  {
    hide TreeToStr, ParamsToStr, Readable, SuffixText, Ends;
    ClosersEnd(a);
    ClosersEnd(b);
    if s.At? {
      AtText(s, a);
      AtText(t, b);
      Front("[", "[", TreeToStr(s.loc) + ("]" + a), TreeToStr(t.loc) + ("]" + b));
      UniqueReading(s.loc, t.loc, "]" + a, "]" + b, arrays, logic);
      Front("]", "]", a, b);
    } else if s.Of? {
      OfText(s, a);
      OfText(t, b);
      Front("(", "(", ParamsToStr(s.ps) + (")" + a), ParamsToStr(t.ps) + (")" + b));
      UniqueParams(s.ps, t.ps, a, b, arrays, logic);
    } else {
      var rest, rest' := TreeToStr(s.v) + ("}" + a), TreeToStr(t.v) + ("}" + b);
      ClosersEnd(rest);
      ClosersEnd(rest');
      WithText(s, a);
      WithText(t, b);
      Front("{", "{", TreeToStr(s.k) + (":=" + rest), TreeToStr(t.k) + (":=" + rest'));
      UniqueReading(s.k, t.k, ":=" + rest, ":=" + rest', arrays, logic);
      Front(":=", ":=", rest, rest');
      UniqueReading(s.v, t.v, "}" + a, "}" + b, arrays, logic);
      Front("}", "}", a, b);
    }
  }

  lemma ClosersEnd(r: string)
    ensures Ends("]" + r) && Ends("}" + r) && Ends(")" + r) && Ends("," + r) && Ends(":=" + r)
  {
    assert (":=" + r)[0] == ':' && ("," + r)[0] == ',' && (")" + r)[0] == ')';
  }

  lemma OfText(s: Suffix, a: string)
    requires s.Of?
    ensures SuffixText(s) + a == "(" + (ParamsToStr(s.ps) + (")" + a)) && |ParamsToStr(s.ps)| < |SuffixText(s)|
  {
    hide ParamsToStr;
    assert "(" + ParamsToStr(s.ps) + ")" + a == "(" + (ParamsToStr(s.ps) + (")" + a));
  }

  /** What follows the first parameter. */
  function AfterParam(ps: seq<Exp>, a: string): string
    requires ps != []
  {
    if |ps| == 1 then ")" + a else "," + (ParamsToStr(ps[1..]) + (")" + a))
  }

  lemma FirstParam(ps: seq<Exp>, a: string)
    requires ps != []
    ensures ParamsToStr(ps) + (")" + a) == TreeToStr(ps[0]) + AfterParam(ps, a) && Ends(AfterParam(ps, a))
    ensures AfterParam(ps, a) != "" && AfterParam(ps, a)[0] == if |ps| == 1 then ')' else ','
    ensures |TreeToStr(ps[0])| <= |ParamsToStr(ps)| && (|ps| > 1 ==> |ParamsToStr(ps[1..])| < |ParamsToStr(ps)|)
  {
    hide TreeToStr, ParamsToStr, Ends;
    ParamsUnfold(ps);
    ClosersEnd(a);
    if |ps| > 1 {
      var x, y := TreeToStr(ps[0]), ParamsToStr(ps[1..]);
      ClosersEnd(y + (")" + a));
      FourParts(x, ",", y, ")" + a);
    }
  }

  lemma ParamsUnfold(ps: seq<Exp>)
    requires ps != []
    ensures ParamsToStr(ps) == if |ps| == 1 then TreeToStr(ps[0]) else TreeToStr(ps[0]) + "," + ParamsToStr(ps[1..])
  {
    hide TreeToStr;
  }

  lemma FourParts(x: string, b: string, y: string, z: string)
    ensures x + b + y + z == x + (b + (y + z))
  {
  }

  lemma {:induction false} UniqueParams(ps: seq<Exp>, qs: seq<Exp>, a: string, b: string, arrays: set<string>,
                                        logic: bool)
    requires ReadableAll(ps, arrays, logic) && ReadableAll(qs, arrays, logic)
    requires ParamsToStr(ps) + (")" + a) == ParamsToStr(qs) + (")" + b)
    ensures ps == qs && a == b
    decreases |ParamsToStr(ps)|, 2
  {
    hide TreeToStr, ParamsToStr, Readable, Ends;
    if ps != [] && qs != [] {
      FirstParam(ps, a);
      FirstParam(qs, b);
      UniqueReading(ps[0], qs[0], AfterParam(ps, a), AfterParam(qs, b), arrays, logic);
      if |ps| == 1 {
        Front(")", ")", a, b);
        assert ps == [ps[0]] && qs == [qs[0]];
      } else {
        Front(",", ",", ParamsToStr(ps[1..]) + (")" + a), ParamsToStr(qs[1..]) + (")" + b));
        UniqueParams(ps[1..], qs[1..], a, b, arrays, logic);
        assert ps == [ps[0]] + ps[1..] && qs == [qs[0]] + qs[1..];
      }
    } else {
      NoParams(ps, a, arrays, logic);
      NoParams(qs, b, arrays, logic);
      if ps == [] && qs == [] { Front(")", ")", a, b); }
    }
  }

  /** Only the empty list starts with the closing parenthesis. */
  lemma NoParams(ps: seq<Exp>, a: string, arrays: set<string>, logic: bool)
    requires ReadableAll(ps, arrays, logic)
    ensures var t := ParamsToStr(ps) + (")" + a); t[0] == ')' <==> ps == []
    ensures ps == [] ==> ParamsToStr(ps) == "" && ParamsToStr(ps) + (")" + a) == ")" + a
  {
    hide TreeToStr, Readable, IdentStart;
    if ps != [] {
      FirstParam(ps, a);
      FirstChar(ps[0], arrays, logic);
      CloserStartsNothing();
    }
  }

  lemma CloserStartsNothing()
    ensures !IdentStart(')') && !IsDigit(')')
  {
  }

  lemma AtText(s: Suffix, a: string)
    requires s.At?
    ensures SuffixText(s) + a == "[" + (TreeToStr(s.loc) + ("]" + a)) && |TreeToStr(s.loc)| < |SuffixText(s)|
  {
    hide TreeToStr;
  }

  lemma WithText(s: Suffix, a: string)
    requires s.With?
    ensures SuffixText(s) + a == "{" + (TreeToStr(s.k) + (":=" + (TreeToStr(s.v) + ("}" + a))))
    ensures |TreeToStr(s.k)| < |SuffixText(s)| && |TreeToStr(s.v)| < |SuffixText(s)|
  {
    hide TreeToStr;
  }

  lemma Unique(e: Exp, f: Exp, r: string, q: string, arrays: set<string>)
    requires Spelled(e, arrays) && Spelled(f, arrays) && Ends(r) && Ends(q) && TreeToStr(e) + r == TreeToStr(f) + q
    ensures e == f && r == q
  {
    SpelledIsReadable(e, arrays);
    SpelledIsReadable(f, arrays);
    UniqueReading(e, f, r, q, arrays, false);
  }

  /** Different expressions have different texts. */
  lemma TextsAreDistinct(e: Exp, f: Exp, arrays: set<string>)
    requires Spelled(e, arrays) && Spelled(f, arrays) && TreeToStr(e) == TreeToStr(f)
    ensures e == f
  {
    assert TreeToStr(e) + "" == TreeToStr(e) && TreeToStr(f) + "" == TreeToStr(f);
    Unique(e, f, "", "", arrays);
  }

  /** So have different formulas: negations, calls, implications and the constant included. */
  lemma FormulaTextsAreDistinct(e: Exp, f: Exp, arrays: set<string>)
    requires Readable(e, arrays, true) && Readable(f, arrays, true) && TreeToStr(e) == TreeToStr(f)
    ensures e == f
  {
    assert TreeToStr(e) + "" == TreeToStr(e) && TreeToStr(f) + "" == TreeToStr(f);
    UniqueReading(e, f, "", "", arrays, true);
  }
}
