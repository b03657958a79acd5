/** The printed text of a statement determines it, but for the grouping of blocks and the iteration
    variables (backend/stencil_ir.py:55-66): what the keys of loops rely on. */
module StatementTexts {
  import opened StencilIr
  import opened Parser
  import opened Texts

  /** A statement without the grouping of its blocks and without iteration variables. */
  datatype Shape = Single(c: Stmt) | Loop(test: Exp, body: seq<Shape>)

  function Shapes(c: Stmt): (r: seq<Shape>)
    ensures r != []
  {
    match c
    case Seq(c1, c2) => Shapes(c1) + Shapes(c2)
    case While(_, test, body) => [Loop(test, Shapes(body))]
    case _ => [Single(c)]
  }

  /** Identifiers as names, arrays used as arrays. */
  predicate SpelledStmt(c: Stmt, arrays: set<string>) {
    match c
    case Just(e) => Spelled(e, arrays)
    case AssignVar(x, e) => Identifier(x) && Spelled(e, arrays)
    case AssignArr(a, loc, e) => Identifier(a) && a in arrays && Spelled(loc, arrays) && Spelled(e, arrays)
    case Seq(c1, c2) => SpelledStmt(c1, arrays) && SpelledStmt(c2, arrays)
    case While(_, test, body) => Spelled(test, arrays) && SpelledStmt(body, arrays)
  }

  predicate SpelledShape(s: Shape, arrays: set<string>) {
    match s
    case Single(c) => !c.Seq? && !c.While? && SpelledStmt(c, arrays)
    case Loop(test, body) => Spelled(test, arrays) && body != [] && SpelledShapes(body, arrays)
  }

  predicate SpelledShapes(ss: seq<Shape>, arrays: set<string>) {
    forall i | 0 <= i < |ss| :: SpelledShape(ss[i], arrays)
  }

  lemma {:induction false} ShapesSpelled(c: Stmt, arrays: set<string>)
    requires SpelledStmt(c, arrays)
    ensures SpelledShapes(Shapes(c), arrays)
  {
    hide Spelled, Identifier;
    match c
    case Seq(c1, c2) => ShapesSpelled(c1, arrays); ShapesSpelled(c2, arrays);
    case While(_, _, body) => ShapesSpelled(body, arrays);
    case _ =>
  }

  // ----- the text of shapes -----

  function ShapeText(s: Shape): string
    decreases s, 0
  {
    match s
    case Single(c) => StmtToStr(c)
    case Loop(test, body) => "while (" + TreeToStr(test) + ") do {" + ShapesText(body) + "}"
  }

  function ShapesText(ss: seq<Shape>): string
    decreases ss, 1
  {
    if ss == [] then ""
    else if |ss| == 1 then ShapeText(ss[0])
    else ShapeText(ss[0]) + "\n" + ShapesText(ss[1..])
  }

  lemma {:induction false} TextOfTwo(ss: seq<Shape>, ts: seq<Shape>)
    requires ss != [] && ts != []
    ensures ShapesText(ss + ts) == ShapesText(ss) + "\n" + ShapesText(ts)
  {
    hide ShapeText;
    assert (ss + ts)[0] == ss[0];
    if |ss| == 1 {
      assert (ss + ts)[1..] == ts;
    } else {
      assert (ss + ts)[1..] == ss[1..] + ts;
      TextOfTwo(ss[1..], ts);
    }
  }

  /** The text is that of the shapes. */
  lemma {:induction false} TextOfShapes(c: Stmt)
    ensures StmtToStr(c) == ShapesText(Shapes(c))
  {
    hide TreeToStr;
    match c
    case Seq(c1, c2) =>
      TextOfShapes(c1);
      TextOfShapes(c2);
      TextOfTwo(Shapes(c1), Shapes(c2));
    case While(_, _, body) => TextOfShapes(body);
    case _ =>
  }

  // ----- unique readability -----

  /** What may follow a statement, and what a block. */
  predicate Follows(r: string) { r == "" || r[0] == '\n' || r[0] == '}' }

  predicate Closes(r: string) { r == "" || r[0] == '}' }

  /** The expression a statement starts with: its left-hand side, or the word `while`. */
  function Opening(s: Shape): Exp
    requires s.Single? ==> !s.c.Seq? && !s.c.While?
  {
    match s
    case Loop(_, _) => Var("while")
    case Single(Just(e)) => e
    case Single(AssignVar(x, _)) => Var(x)
    case Single(AssignArr(a, loc, _)) => Arr(Var(a), loc)
  }

  function Remainder(s: Shape): string
    requires s.Single? ==> !s.c.Seq? && !s.c.While?
  {
    match s
    case Loop(test, body) => " (" + TreeToStr(test) + ") do {" + ShapesText(body) + "}"
    case Single(Just(_)) => ""
    case Single(AssignVar(_, e)) => " = " + TreeToStr(e)
    case Single(AssignArr(_, _, e)) => " = " + TreeToStr(e)
  }

  lemma Opens(s: Shape, r: string, arrays: set<string>)
    requires SpelledShape(s, arrays) && Follows(r)
    ensures ShapeText(s) + r == TreeToStr(Opening(s)) + (Remainder(s) + r)
    ensures Spelled(Opening(s), arrays) && Ends(Remainder(s) + r)
    ensures var t := Remainder(s) + r;
      if s.Loop? then |t| > 1 && t[0] == ' ' && t[1] == '('
      else if s.c.Just? then t == r else |t| > 1 && t[0] == ' ' && t[1] == '='
  {
    hide Spelled, ShapesText, Identifier;
    match s
    case Loop(test, body) => LoopOpens(test, body, r, arrays);
    case Single(AssignVar(x, e)) => VarOpens(x, e, r, arrays);
    case Single(AssignArr(a, loc, e)) => ArrOpens(a, loc, e, r, arrays);
    case Single(_) =>
  }

  lemma LoopOpens(test: Exp, body: seq<Shape>, r: string, arrays: set<string>)
    ensures ShapeText(Loop(test, body)) + r == TreeToStr(Var("while")) + (Remainder(Loop(test, body)) + r)
    ensures Spelled(Var("while"), arrays)
    ensures var t := Remainder(Loop(test, body)) + r; |t| > 1 && t[0] == ' ' && t[1] == '('
  {
    hide ShapesText;
    var t, b := TreeToStr(test), ShapesText(body);
    assert "while (" == "while" + " (";
    assert "while (" + t + ") do {" + b + "}" + r == "while" + (" (" + t + ") do {" + b + "}" + r);
  }

  lemma VarOpens(x: string, e: Exp, r: string, arrays: set<string>)
    requires Identifier(x)
    ensures ShapeText(Single(AssignVar(x, e))) + r == TreeToStr(Var(x)) + (" = " + TreeToStr(e) + r)
    ensures Spelled(Var(x), arrays)
    ensures var t := " = " + TreeToStr(e) + r; |t| > 1 && t[0] == ' ' && t[1] == '='
  {
    hide Identifier;
    assert x + " = " + TreeToStr(e) + r == x + (" = " + TreeToStr(e) + r);
  }

  lemma ArrOpens(a: string, loc: Exp, e: Exp, r: string, arrays: set<string>)
    requires Identifier(a) && a in arrays && Spelled(loc, arrays)
    ensures ShapeText(Single(AssignArr(a, loc, e))) + r == TreeToStr(Arr(Var(a), loc)) + (" = " + TreeToStr(e) + r)
    ensures Spelled(Arr(Var(a), loc), arrays)
    ensures var t := " = " + TreeToStr(e) + r; |t| > 1 && t[0] == ' ' && t[1] == '='
  {
    hide Identifier, TreeToStr;
    var h := TreeToStr(Arr(Var(a), loc));
    assert h + " = " + TreeToStr(e) + r == h + (" = " + TreeToStr(e) + r);
  }

  lemma {:induction false} UniqueShape(s: Shape, t: Shape, r: string, q: string, arrays: set<string>)
    requires SpelledShape(s, arrays) && SpelledShape(t, arrays) && Follows(r) && Follows(q)
    requires ShapeText(s) + r == ShapeText(t) + q
    ensures s == t && r == q
    decreases s, 0
  {
    hide TreeToStr, Spelled, Identifier, ShapesText, Ends, ShapeText, Remainder, Opening, SpelledShape;
    if s.Single? { SingleIsPlain(s, arrays); }
    if t.Single? { SingleIsPlain(t, arrays); }
    Opens(s, r, arrays);
    Opens(t, q, arrays);
    Unique(Opening(s), Opening(t), Remainder(s) + r, Remainder(t) + q, arrays);
    assert s.Loop? == t.Loop? && (s.Single? ==> s.c.Just? == t.c.Just?);
    if s.Loop? {
      UniqueLoop(s, t, r, q, arrays);
    } else {
      UniqueSingle(s, t, r, q, arrays);
    }
  }

  lemma SingleIsPlain(s: Shape, arrays: set<string>)
    requires SpelledShape(s, arrays) && s.Single?
    ensures !s.c.Seq? && !s.c.While?
  {
  }

  lemma UniqueSingle(s: Shape, t: Shape, r: string, q: string, arrays: set<string>)
    requires s.Single? && t.Single? && s.c.Just? == t.c.Just?
    requires SpelledShape(s, arrays) && SpelledShape(t, arrays) && Follows(r) && Follows(q)
    requires Opening(s) == Opening(t) && Remainder(s) + r == Remainder(t) + q
    ensures s == t && r == q
  {
    hide TreeToStr, Spelled, Identifier, ShapesText, Ends;
    if !s.c.Just? {
      var e, f := s.c.rval, t.c.rval;
      AssignText(s, r);
      AssignText(t, q);
      Front(" = ", " = ", TreeToStr(e) + r, TreeToStr(f) + q);
      FollowsEnds(r);
      FollowsEnds(q);
      Unique(e, f, r, q, arrays);
    } else {
      assert Remainder(s) + r == r && Remainder(t) + q == q;
    }
    SameSingle(s, t);
  }

  lemma SameSingle(s: Shape, t: Shape)
    requires s.Single? && t.Single? && !s.c.Seq? && !s.c.While? && !t.c.Seq? && !t.c.While?
    requires Opening(s) == Opening(t) && s.c.Just? == t.c.Just? && (s.c.Just? || s.c.rval == t.c.rval)
    ensures s == t
  {
  }

  lemma AssignText(s: Shape, r: string)
    requires s.Single? && (s.c.AssignVar? || s.c.AssignArr?)
    ensures Remainder(s) + r == " = " + (TreeToStr(s.c.rval) + r)
  {
    hide TreeToStr;
    assert " = " + TreeToStr(s.c.rval) + r == " = " + (TreeToStr(s.c.rval) + r);
  }

  lemma FollowsEnds(r: string)
    requires Follows(r)
    ensures Ends(r)
  {
  }

  lemma {:induction false} UniqueLoop(s: Shape, t: Shape, r: string, q: string, arrays: set<string>)
    requires s.Loop? && t.Loop? && SpelledShape(s, arrays) && SpelledShape(t, arrays) && Follows(r) && Follows(q)
    requires Remainder(s) + r == Remainder(t) + q
    ensures s == t && r == q
    decreases s, -1
  {
    hide TreeToStr, Spelled, Identifier, ShapesText, Ends, ShapeText, SpelledShapes, Remainder;
    var b, b' := ShapesText(s.body) + ("}" + r), ShapesText(t.body) + ("}" + q);
    LoopText(s, r);
    LoopText(t, q);
    Front(" (", " (", TreeToStr(s.test) + (") do {" + b), TreeToStr(t.test) + (") do {" + b'));
    ParenEnds(b);
    ParenEnds(b');
    Unique(s.test, t.test, ") do {" + b, ") do {" + b', arrays);
    Front(") do {", ") do {", b, b');
    UniqueShapes(s.body, t.body, "}" + r, "}" + q, arrays);
    Front("}", "}", r, q);
  }

  lemma ParenEnds(b: string)
    ensures Ends(") do {" + b)
  {
    assert (") do {" + b)[0] == ')';
  }

  lemma LoopText(s: Shape, r: string)
    requires s.Loop?
    ensures Remainder(s) + r == " (" + (TreeToStr(s.test) + (") do {" + (ShapesText(s.body) + ("}" + r))))
  {
    hide TreeToStr, ShapesText;
    var t, b := TreeToStr(s.test), ShapesText(s.body);
    Regroup(" (", t, ") do {", b, "}" + r);
    assert " (" + t + ") do {" + b + "}" + r == " (" + t + ") do {" + b + ("}" + r);
  }

  lemma Regroup(a: string, b: string, c: string, d: string, e: string)
    ensures a + b + c + d + e == a + (b + (c + (d + e)))
  {
  }

  lemma {:induction false} UniqueShapes(ss: seq<Shape>, ts: seq<Shape>, r: string, q: string, arrays: set<string>)
    requires ss != [] && ts != [] && SpelledShapes(ss, arrays) && SpelledShapes(ts, arrays) && Closes(r) && Closes(q)
    requires ShapesText(ss) + r == ShapesText(ts) + q
    ensures ss == ts && r == q
    decreases ss, 1
  {
    hide TreeToStr, Spelled, Identifier, ShapesText, Ends, ShapeText, SpelledShape;
    var a, b := After(ss, r), After(ts, q);
    FirstOfText(ss, r);
    FirstOfText(ts, q);
    UniqueShape(ss[0], ts[0], a, b, arrays);
    if |ss| > 1 {
      Front("\n", "\n", ShapesText(ss[1..]) + r, ShapesText(ts[1..]) + q);
      UniqueShapes(ss[1..], ts[1..], r, q, arrays);
      assert ss == [ss[0]] + ss[1..] && ts == [ts[0]] + ts[1..];
    }
  }

  function After(ss: seq<Shape>, r: string): string
    requires ss != []
  {
    if |ss| == 1 then r else "\n" + (ShapesText(ss[1..]) + r)
  }

  lemma FirstOfText(ss: seq<Shape>, r: string)
    requires ss != [] && Closes(r)
    ensures ShapesText(ss) + r == ShapeText(ss[0]) + After(ss, r) && Follows(After(ss, r))
    ensures |ss| > 1 <==> After(ss, r) != "" && After(ss, r)[0] == '\n'
  {
    hide ShapeText, ShapesText;
    if |ss| == 1 {
      OneShape(ss[0]);
      assert ss == [ss[0]];
    } else {
      MoreShapes(ss);
      ThreeAndRest(ShapeText(ss[0]), "\n", ShapesText(ss[1..]), r);
    }
  }

  lemma ThreeAndRest(a: string, b: string, c: string, r: string)
    ensures a + b + c + r == a + (b + (c + r))
  {
  }

  lemma MoreShapes(ss: seq<Shape>)
    requires |ss| > 1
    ensures ShapesText(ss) == ShapeText(ss[0]) + "\n" + ShapesText(ss[1..])
  {
    hide ShapeText;
  }

  // ----- the theorems -----

  /** Two statements print alike exactly when they agree up to the grouping of blocks and the
      iteration variables. */
  lemma PrintAlikeIff(c: Stmt, d: Stmt, arrays: set<string>)
    requires SpelledStmt(c, arrays) && SpelledStmt(d, arrays)
    ensures StmtToStr(c) == StmtToStr(d) <==> Shapes(c) == Shapes(d)
  {
    hide StmtToStr, Shapes, ShapesText, SpelledStmt;
    TextOfShapes(c);
    TextOfShapes(d);
    if StmtToStr(c) == StmtToStr(d) {
      ShapesSpelled(c, arrays);
      ShapesSpelled(d, arrays);
      assert ShapesText(Shapes(c)) + "" == ShapesText(Shapes(d)) + "";
      UniqueShapes(Shapes(c), Shapes(d), "", "", arrays);
    }
  }

  /** Two loops share a key exactly when their tests are the same and their bodies print alike. */
  lemma SameKeyIff(c: Stmt, d: Stmt, arrays: set<string>)
    requires c.While? && d.While? && SpelledStmt(c, arrays) && SpelledStmt(d, arrays)
    ensures LoopKey(c) == LoopKey(d) <==> c.test == d.test && Shapes(c.body) == Shapes(d.body)
  {
    hide StmtToStr, ShapesText, Spelled;
    PrintAlikeIff(c, d, arrays);
    assert Shapes(c)[0] == Loop(c.test, Shapes(c.body)) && Shapes(d)[0] == Loop(d.test, Shapes(d.body));
  }

  // ----- programs with distinct loop texts -----

  function LoopShapes(c: Stmt): set<Shape> {
    match c
    case Seq(c1, c2) => LoopShapes(c1) + LoopShapes(c2)
    case While(_, test, body) => {Loop(test, Shapes(body))} + LoopShapes(body)
    case _ => {}
  }

  /** No two loops of the program agree up to grouping and iteration variables. */
  predicate DistinctShapes(c: Stmt) {
    match c
    case Seq(c1, c2) => DistinctShapes(c1) && DistinctShapes(c2) && LoopShapes(c1) !! LoopShapes(c2)
    case While(_, _, body) => DistinctShapes(body)
    case _ => true
  }

  lemma {:induction false} KeysOfShapes(c: Stmt, k: string)
    ensures k in LoopKeys(c) <==> exists s | s in LoopShapes(c) :: ShapeText(s) == k
  {
    hide LoopKey, ShapeText, StmtToStr;
    match c
    case Seq(c1, c2) => KeysOfShapes(c1, k); KeysOfShapes(c2, k);
    case While(_, _, body) =>
      KeysOfShapes(body, k);
      KeyIsText(c);
    case _ =>
  }

  lemma KeyIsText(c: Stmt)
    requires c.While?
    ensures LoopKey(c) == ShapeText(Loop(c.test, Shapes(c.body)))
  {
    hide ShapesText, StmtToStr, TreeToStr;
    TextOfShapes(c);
    OneShape(Loop(c.test, Shapes(c.body)));
  }

  lemma OneShape(s: Shape)
    ensures ShapesText([s]) == ShapeText(s)
  {
    hide ShapeText;
  }

  lemma {:induction false} LoopShapesSpelled(c: Stmt, s: Shape, arrays: set<string>)
    requires SpelledStmt(c, arrays) && s in LoopShapes(c)
    ensures SpelledShape(s, arrays)
  {
    hide Spelled, Identifier;
    match c
    case Seq(c1, c2) =>
      if s in LoopShapes(c1) { LoopShapesSpelled(c1, s, arrays); } else { LoopShapesSpelled(c2, s, arrays); }
    case While(_, _, body) =>
      ShapesSpelled(body, arrays);
      if s in LoopShapes(body) { LoopShapesSpelled(body, s, arrays); }
    case _ =>
  }

  /** Different shapes have different keys. */
  lemma ShapesApart(s: Shape, t: Shape, arrays: set<string>)
    requires SpelledShape(s, arrays) && SpelledShape(t, arrays) && ShapeText(s) == ShapeText(t)
    ensures s == t
  {
    hide ShapeText, SpelledShape;
    assert ShapeText(s) + "" == ShapeText(t) + "";
    UniqueShape(s, t, "", "", arrays);
  }

  /** The condition of distinct loop texts, in terms of the program itself. */
  lemma {:induction false} DistinctLoopsIff(c: Stmt, arrays: set<string>)
    requires SpelledStmt(c, arrays)
    ensures DistinctLoops(c) <==> DistinctShapes(c)
  {
    hide LoopKey, ShapeText, Spelled, Identifier, LoopKeys, LoopShapes, SpelledShape;
    match c
    case Seq(c1, c2) =>
      DistinctLoopsIff(c1, arrays);
      DistinctLoopsIff(c2, arrays);
      ApartIff(c1, c2, arrays);
    case While(_, _, body) => DistinctLoopsIff(body, arrays);
    case _ =>
  }

  lemma ApartIff(c1: Stmt, c2: Stmt, arrays: set<string>)
    requires SpelledStmt(c1, arrays) && SpelledStmt(c2, arrays)
    ensures LoopKeys(c1) !! LoopKeys(c2) <==> LoopShapes(c1) !! LoopShapes(c2)
  {
    hide LoopKey, ShapeText, SpelledStmt, LoopKeys, LoopShapes, SpelledShape;
    if k :| k in LoopKeys(c1) && k in LoopKeys(c2) {
      KeysOfShapes(c1, k);
      KeysOfShapes(c2, k);
      var s :| s in LoopShapes(c1) && ShapeText(s) == k;
      var t :| t in LoopShapes(c2) && ShapeText(t) == k;
      LoopShapesSpelled(c1, s, arrays);
      LoopShapesSpelled(c2, t, arrays);
      ShapesApart(s, t, arrays);
    }
    if s :| s in LoopShapes(c1) && s in LoopShapes(c2) {
      KeysOfShapes(c1, ShapeText(s));
      KeysOfShapes(c2, ShapeText(s));
    }
  }
}
