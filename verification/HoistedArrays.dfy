/** Augmented arrays become local array copies (backend/assertion_to_sketch.py:36-50, 89-94). */
module HoistedArrays {
  import opened StencilIr
  import opened Interpret
  import opened GenerateSketch
  import opened AssertionToSketch

  /** `double[_array_sz] name = base;` and `name[99+idx] = value;` */
  datatype Decl =
    | DeclArr(name: string, base: Exp)
    | SetCell(name: string, idx: Exp, value: Exp)

  // ----- running the declarations -----

  function RunDecl(d: Decl, s: State, m: Model): State {
    match d
    case DeclArr(n, b) => s[n := Eval(b, s, m)]
    case SetCell(n, i, v) => s[n := Store(Lookup(s, n), Eval(i, s, m), Eval(v, s, m))]
  }

  function RunDecls(ds: seq<Decl>, s: State, m: Model): State {
    if ds == [] then s else RunDecl(ds[|ds| - 1], RunDecls(ds[..|ds| - 1], s, m), m)
  }

  function Declared(ds: seq<Decl>): set<string> {
    set i | 0 <= i < |ds| && ds[i].DeclArr? :: ds[i].name
  }

  function DeclVars(d: Decl): set<string> {
    match d
    case DeclArr(_, b) => Vars(b)
    case SetCell(_, i, v) => Vars(i) + Vars(v)
  }

  /** Every name is declared once, and before any use or update. */
  ghost predicate InOrder(ds: seq<Decl>, program: set<string>) {
    forall i | 0 <= i < |ds| ::
      && DeclVars(ds[i]) <= program + Declared(ds[..i])
      && (if ds[i].DeclArr? then ds[i].name !in Declared(ds[..i]) else ds[i].name in Declared(ds[..i]))
  }

  lemma RunDeclsSnoc(ds: seq<Decl>, d: Decl, s: State, m: Model)
    ensures RunDecls(ds + [d], s, m) == RunDecl(d, RunDecls(ds, s, m), m)
  {
    assert (ds + [d])[..|ds|] == ds;
  }

  /** Later declarations leave every name alone that they do not set. */
  lemma {:induction false} RunDeclsFrame(ds: seq<Decl>, more: seq<Decl>, x: string, s: State, m: Model)
    requires forall i | 0 <= i < |more| :: more[i].name != x
    ensures Lookup(RunDecls(ds + more, s, m), x) == Lookup(RunDecls(ds, s, m), x)
  {
    if more == [] {
      assert ds + more == ds;
    } else {
      var front, d := more[..|more| - 1], more[|more| - 1];
      assert ds + more == (ds + front) + [d];
      RunDeclsSnoc(ds + front, d, s, m);
      RunDeclsFrame(ds, front, x, s, m);
    }
  }

  lemma RunDeclsFrameExp(ds: seq<Decl>, more: seq<Decl>, e: Exp, s: State, m: Model)
    requires forall i | 0 <= i < |more| :: more[i].name !in Vars(e)
    ensures Eval(e, RunDecls(ds + more, s, m), m) == Eval(e, RunDecls(ds, s, m), m)
  {
    hide Eval, Vars, RunDecls;
    forall x | x in Vars(e) ensures Lookup(RunDecls(ds + more, s, m), x) == Lookup(RunDecls(ds, s, m), x) {
      RunDeclsFrame(ds, more, x, s, m);
    }
    Coincidence(e, RunDecls(ds + more, s, m), RunDecls(ds, s, m), m);
  }

  // ----- augmentations -----

  /** All augmented arrays inside an expression. */
  function Augs(e: Exp): set<Exp> {
    match e
    case Bin(l, _, r) => Augs(l) + Augs(r)
    case Not(b) => Augs(b)
    case Arr(a, loc) => Augs(a) + Augs(loc)
    case Aug(a, k, v) => {e} + Augs(a) + Augs(k) + Augs(v)
    case Call(_, ps) => AugsOf(ps)
    case Implies(a, c) => Augs(a) + Augs(c)
    case _ => {}
  }

  function AugsOf(ps: seq<Exp>): set<Exp> {
    set i, a | 0 <= i < |ps| && a in Augs(ps[i]) :: a
  }

  lemma {:induction false} PartTexts(e: Exp)
    ensures
      match e
      case Bin(l, _, r) => |TreeToStr(l)| < |TreeToStr(e)| && |TreeToStr(r)| < |TreeToStr(e)|
      case Not(b) => |TreeToStr(b)| < |TreeToStr(e)|
      case Arr(a, loc) => |TreeToStr(a)| < |TreeToStr(e)| && |TreeToStr(loc)| < |TreeToStr(e)|
      case Aug(a, k, v) =>
        |TreeToStr(a)| < |TreeToStr(e)| && |TreeToStr(k)| < |TreeToStr(e)| && |TreeToStr(v)| < |TreeToStr(e)|
      case Call(f, ps) => forall i | 0 <= i < |ps| :: |TreeToStr(ps[i])| < |TreeToStr(e)|
      case Implies(a, c) => |TreeToStr(a)| < |TreeToStr(e)| && |TreeToStr(c)| < |TreeToStr(e)|
      case _ => true
  {
    if e.Call? { ParamTexts(e.params); }
  }

  lemma {:induction false} ParamTexts(ps: seq<Exp>)
    ensures forall i | 0 <= i < |ps| :: |TreeToStr(ps[i])| <= |ParamsToStr(ps)|
  {
    if |ps| > 1 {
      ParamTexts(ps[1..]);
      forall i | 0 <= i < |ps| ensures |TreeToStr(ps[i])| <= |ParamsToStr(ps)| {
        if i > 0 { assert ps[i] == ps[1..][i - 1]; }
      }
    }
  }

  predicate NoAugs(e: Exp) { Augs(e) == {} }

  // ----- the translator's state -----

  /** A supply of fresh names, the variables of the formulas, the augmented arrays in them, and
      the model they are read under. */
  datatype Env = Env(supply: nat -> string, program: set<string>, universe: set<Exp>, m: Model)

  /** Names are fresh and distinct, and printed text tells augmented arrays apart. */
  ghost predicate Suitable(env: Env) {
    && (forall i: nat, j: nat | i != j :: env.supply(i) != env.supply(j))
    && (forall i: nat :: env.supply(i) !in env.program)
    && (forall a, b | a in env.universe && b in env.universe && TreeToStr(a) == TreeToStr(b) :: a == b)
  }

  /** The name table and the declarations fit together. `open` are the texts that have a name
      but whose copy is still being built. */
  ghost predicate Named(env: Env, augMap: map<string, string>, decls: seq<Decl>, used: nat, open: set<string>) {
    && open <= augMap.Keys
    && InOrder(decls, env.program)
    && Declared(decls) <= augMap.Values
    && (forall t | t in augMap && t !in open :: augMap[t] in Declared(decls))
    && (forall t | t in augMap :: exists i: nat | i < used :: augMap[t] == env.supply(i))
    && (forall t, u | t in augMap && u in augMap && t != u :: augMap[t] != augMap[u])
  }

  /** Every finished name holds the array its augmentation denotes. */
  ghost predicate Hold(env: Env, augMap: map<string, string>, decls: seq<Decl>, open: set<string>) {
    forall a, s | a in env.universe && TreeToStr(a) in augMap && TreeToStr(a) !in open ::
      Lookup(RunDecls(decls, s, env.m), augMap[TreeToStr(a)]) == Eval(a, s, env.m)
  }

  /** What a finished expression may mention. */
  function Known(env: Env, augMap: map<string, string>, open: set<string>): set<string> {
    env.program + set t | t in augMap && t !in open :: augMap[t]
  }

  /** `r` means after the declarations what `e` means before them. */
  ghost predicate Renders(env: Env, augMap: map<string, string>, decls: seq<Decl>, open: set<string>, r: Exp, e: Exp) {
    && NoAugs(r) && Vars(r) <= Known(env, augMap, open)
    && forall s :: Eval(r, RunDecls(decls, s, env.m), env.m) == Eval(e, s, env.m)
  }

  /** Only new entries, and only declarations of names drawn since. */
  ghost predicate Grows(env: Env, augMap: map<string, string>, decls: seq<Decl>, used: nat,
                        augMap': map<string, string>, decls': seq<Decl>, used': nat) {
    && augMap.Keys <= augMap'.Keys && (forall t | t in augMap :: augMap'[t] == augMap[t])
    && used <= used' && decls <= decls'
    && (forall i | |decls| <= i < |decls'| :: Drawn(env, decls'[i].name, used, used'))
  }

  ghost predicate Drawn(env: Env, name: string, lo: nat, hi: nat) {
    exists j: nat | lo <= j < hi :: name == env.supply(j)
  }

  lemma GrowsTrans(env: Env, m0: map<string, string>, d0: seq<Decl>, u0: nat, m1: map<string, string>, d1: seq<Decl>,
                   u1: nat,
                   m2: map<string, string>, d2: seq<Decl>, u2: nat)
    requires Grows(env, m0, d0, u0, m1, d1, u1) && Grows(env, m1, d1, u1, m2, d2, u2)
    ensures Grows(env, m0, d0, u0, m2, d2, u2)
  {
    forall i | |d0| <= i < |d2| ensures Drawn(env, d2[i].name, u0, u2) {
      if i < |d1| {
        assert d2[i] == d1[i];
        assert Drawn(env, d1[i].name, u0, u1);
      } else {
        assert Drawn(env, d2[i].name, u1, u2);
      }
    }
  }

  /** Growth leaves the names drawn before alone. */
  lemma KnownIsOld(env: Env, augMap: map<string, string>, decls: seq<Decl>, used: nat, open: set<string>,
                   augMap': map<string, string>, decls': seq<Decl>, used': nat, x: string, i: nat)
    requires Suitable(env) && Named(env, augMap, decls, used, open)
    requires Grows(env, augMap, decls, used, augMap', decls', used')
    requires x in Known(env, augMap, open) || x in augMap.Values
    requires |decls| <= i < |decls'|
    ensures decls'[i].name != x
  {
    hide InOrder;
  }

  /** A rendering survives growth. */
  lemma RendersGrows(env: Env, augMap: map<string, string>, decls: seq<Decl>, used: nat, open: set<string>,
                     augMap': map<string, string>, decls': seq<Decl>, used': nat, r: Exp, e: Exp)
    requires Suitable(env) && Named(env, augMap, decls, used, open)
    requires Grows(env, augMap, decls, used, augMap', decls', used')
    requires Renders(env, augMap, decls, open, r, e)
    ensures Renders(env, augMap', decls', open, r, e)
  {
    hide Eval, Vars, Augs, RunDecls, InOrder, Named, Suitable;
    var more := decls'[|decls|..];
    assert decls' == decls + more;
    forall i | 0 <= i < |more| ensures more[i].name !in Vars(r) {
      if more[i].name in Vars(r) {
        KnownIsOld(env, augMap, decls, used, open, augMap', decls', used', more[i].name, |decls| + i);
      }
    }
    forall s
      ensures Eval(r, RunDecls(decls', s, env.m), env.m) == Eval(e, s, env.m)
    {
      RunDeclsFrameExp(decls, more, r, s, env.m);
    }
  }

  /** A new augmentation receives the next name of the supply. */
  lemma Register(env: Env, augMap: map<string, string>, decls: seq<Decl>, used: nat, open: set<string>, key: string)
    requires Suitable(env) && Named(env, augMap, decls, used, open) && Hold(env, augMap, decls, open) && key !in augMap
    ensures var augMap' := augMap[key := env.supply(used)];
      && Named(env, augMap', decls, used + 1, open + {key}) && Hold(env, augMap', decls, open + {key})
      && Grows(env, augMap, decls, used, augMap', decls, used + 1)
      && env.supply(used) !in Declared(decls)
      && Known(env, augMap', open + {key}) == Known(env, augMap, open)
  {
    hide InOrder, Declared, TreeToStr, RunDecls, Eval;
    var augMap' := augMap[key := env.supply(used)];
    forall t | t in augMap ensures augMap[t] != env.supply(used) {
      var i: nat :| i < used && augMap[t] == env.supply(i);
    }
    forall t | t in augMap' ensures exists i: nat | i < used + 1 :: augMap'[t] == env.supply(i) {
      if t != key { var i: nat :| i < used && augMap[t] == env.supply(i); }
    }
    assert augMap'.Values >= augMap.Values by {
      forall v | v in augMap.Values ensures v in augMap'.Values {
        var t :| t in augMap && augMap[t] == v;
        assert augMap'[t] == v;
      }
    }
  }

  lemma DeclaredSnoc(ds: seq<Decl>, d: Decl)
    ensures Declared(ds + [d]) == Declared(ds) + if d.DeclArr? then {d.name} else {}
  {
    var es := ds + [d];
    assert forall i | 0 <= i < |ds| :: es[i] == ds[i];
    assert es[|ds|] == d;
    forall n | n in Declared(ds) ensures n in Declared(es) {
      var i :| 0 <= i < |ds| && ds[i].DeclArr? && ds[i].name == n;
      assert es[i].DeclArr?;
    }
  }

  lemma InOrderSnoc(ds: seq<Decl>, d: Decl, program: set<string>)
    requires InOrder(ds, program) && DeclVars(d) <= program + Declared(ds)
    requires if d.DeclArr? then d.name !in Declared(ds) else d.name in Declared(ds)
    ensures InOrder(ds + [d], program)
  {
    hide Declared, DeclVars;
    var es := ds + [d];
    forall i | 0 <= i < |es| ensures es[..i] == if i < |ds| then ds[..i] else ds {}
  }

  /** One more declaration, for a name that is not finished, keeps everything finished. */
  lemma AddDecl(env: Env, augMap: map<string, string>, decls: seq<Decl>, used: nat, open: set<string>, key: string,
                d: Decl)
    requires Suitable(env) && Named(env, augMap, decls, used, open) && Hold(env, augMap, decls, open)
    requires key in open && d.name == augMap[key] && DeclVars(d) <= Known(env, augMap, open)
    requires if d.DeclArr? then d.name !in Declared(decls) else d.name in Declared(decls)
    ensures Named(env, augMap, decls + [d], used, open) && Hold(env, augMap, decls + [d], open)
  {
    hide Declared, DeclVars, TreeToStr, RunDecls, Eval, InOrder;
    DeclaredSnoc(decls, d);
    InOrderSnoc(decls, d, env.program);
    forall a, s | a in env.universe && TreeToStr(a) in augMap && TreeToStr(a) !in open
      ensures Lookup(RunDecls(decls + [d], s, env.m), augMap[TreeToStr(a)]) == Eval(a, s, env.m)
    {
      RunDeclsFrame(decls, [d], augMap[TreeToStr(a)], s, env.m);
    }
  }

  /** Once its cell is set, the copy is finished. */
  lemma Finish(env: Env, augMap: map<string, string>, decls: seq<Decl>, used: nat, open: set<string>, e: Exp)
    requires Suitable(env) && e in env.universe && TreeToStr(e) !in open
    requires Named(env, augMap, decls, used, open + {TreeToStr(e)}) && Hold(env, augMap, decls, open + {TreeToStr(e)})
    requires augMap[TreeToStr(e)] in Declared(decls)
    requires forall s :: Lookup(RunDecls(decls, s, env.m), augMap[TreeToStr(e)]) == Eval(e, s, env.m)
    ensures Named(env, augMap, decls, used, open) && Hold(env, augMap, decls, open)
  {
    hide Declared, TreeToStr, RunDecls, Eval, InOrder;
  }

  // ----- the translator -----

  class ToSketch {
    /** From the text of an augmented array to its name. */
    var augMap: map<string, string>
    var decls: seq<Decl>
    /** How many names have been drawn. */
    var used: nat
    const supply: nat -> string

    constructor (supply: nat -> string)
      ensures augMap == map[] && decls == [] && used == 0 && this.supply == supply
    {
      augMap, decls, used := map[], [], 0;
      this.supply := supply;
    }

    ghost predicate Valid(env: Env, open: set<string>)
      reads this
    {
      env.supply == supply && Suitable(env) && Named(env, augMap, decls, used, open) && Hold(env, augMap, decls, open)
    }

    /** Replaces every augmented array by a name, declaring copies as it goes. */
    method Visit(e: Exp, ghost env: Env, ghost open: set<string>) returns (r: Exp)
      requires ImplFree(e) && Augs(e) <= env.universe && Vars(e) <= env.program
      requires Valid(env, open) && forall t | t in open :: |TreeToStr(e)| < |t|
      modifies this
      ensures Valid(env, open) && Grows(env, old(augMap), old(decls), old(used), augMap, decls, used)
      ensures Renders(env, augMap, decls, open, r, e)
      decreases |TreeToStr(e)|, 1
    {
      hide TreeToStr, Eval, RunDecls, Named, Hold, Suitable, Renders;
      PartTexts(e);
      GrowsSelf(env, augMap, decls, used);
      match e
      case Bin(a, op, b) =>
        var x, y := VisitTwo(a, b, env, open);
        r := Bin(x, op, y);
        RendersNode(env, augMap, decls, open, r, e);
      case Arr(a, b) =>
        var x, y := VisitTwo(a, b, env, open);
        r := Arr(x, y);
        RendersNode(env, augMap, decls, open, r, e);
      case Not(b) =>
        var x := Visit(b, env, open);
        r := Not(x);
        RendersNode(env, augMap, decls, open, r, e);
      case Call(f, ps) =>
        var xs := VisitParams(e, env, open);
        r := Call(f, xs);
        RendersCall(env, augMap, decls, open, f, xs, ps);
      case Aug(_, _, _) =>
        r := VisitAugArrayVarNode(e, env, open);
      case _ =>
        r := e;
        RendersAtom(env, augMap, decls, used, open, e);
    }

    method VisitTwo(a: Exp, b: Exp, ghost env: Env, ghost open: set<string>) returns (x: Exp, y: Exp)
      requires ImplFree(a) && Augs(a) <= env.universe && Vars(a) <= env.program
      requires ImplFree(b) && Augs(b) <= env.universe && Vars(b) <= env.program
      requires Valid(env, open) && forall t | t in open :: |TreeToStr(a)| < |t| && |TreeToStr(b)| < |t|
      modifies this
      ensures Valid(env, open) && Grows(env, old(augMap), old(decls), old(used), augMap, decls, used)
      ensures Renders(env, augMap, decls, open, x, a) && Renders(env, augMap, decls, open, y, b)
      decreases if |TreeToStr(a)| < |TreeToStr(b)| then |TreeToStr(b)| else |TreeToStr(a)|, 2
    {
      hide TreeToStr, Eval, RunDecls, Named, Hold, Suitable, Renders, Grows, ImplFree, Augs, Vars;
      x := Visit(a, env, open);
      ghost var m1, d1, u1 := augMap, decls, used;
      y := Visit(b, env, open);
      RendersGrows(env, m1, d1, u1, open, augMap, decls, used, x, a);
      GrowsTrans(env, old(augMap), old(decls), old(used), m1, d1, u1, augMap, decls, used);
    }

    method VisitParams(e: Exp, ghost env: Env, ghost open: set<string>) returns (rs: seq<Exp>)
      requires e.Call? && ImplFree(e) && Augs(e) <= env.universe && Vars(e) <= env.program
      requires Valid(env, open) && forall t | t in open :: |TreeToStr(e)| < |t|
      modifies this
      ensures Valid(env, open) && Grows(env, old(augMap), old(decls), old(used), augMap, decls, used)
      ensures |rs| == |e.params| && forall i | 0 <= i < |rs| :: Renders(env, augMap, decls, open, rs[i], e.params[i])
      decreases |TreeToStr(e)|, 0
    {
      hide TreeToStr, Eval, RunDecls, Named, Hold, Suitable, Renders, Grows, ImplFree, Augs, Vars;
      var ps := e.params;
      PartTexts(e);
      ParamFacts(e);
      GrowsSelf(env, augMap, decls, used);
      rs := [];
      for i := 0 to |ps|
        invariant |rs| == i && forall j | 0 <= j < i :: Renders(env, augMap, decls, open, rs[j], ps[j])
        invariant Valid(env, open) && Grows(env, old(augMap), old(decls), old(used), augMap, decls, used)
      {
        ghost var m1, d1, u1 := augMap, decls, used;
        var x := Visit(ps[i], env, open);
        forall j | 0 <= j < i ensures Renders(env, augMap, decls, open, rs[j], ps[j]) {
          RendersGrows(env, m1, d1, u1, open, augMap, decls, used, rs[j], ps[j]);
        }
        GrowsTrans(env, old(augMap), old(decls), old(used), m1, d1, u1, augMap, decls, used);
        rs := rs + [x];
      }
    }

    /** assertion_to_sketch.py:89-94: a known text gets its name, a new one is registered first. */
    method VisitAugArrayVarNode(e: Exp, ghost env: Env, ghost open: set<string>) returns (r: Exp)
      requires e.Aug? && ImplFree(e) && Augs(e) <= env.universe && Vars(e) <= env.program
      requires Valid(env, open) && forall t | t in open :: |TreeToStr(e)| < |t|
      modifies this
      ensures Valid(env, open) && Grows(env, old(augMap), old(decls), old(used), augMap, decls, used)
      ensures Renders(env, augMap, decls, open, r, e)
      decreases |TreeToStr(e)|, 0
    {
      hide TreeToStr, Eval, RunDecls, Named, Hold, Renders, ImplFree, Vars, InOrder, Declared, Suitable;
      var key := TreeToStr(e);
      GrowsSelf(env, augMap, decls, used);
      if key !in augMap {
        Register(env, augMap, decls, used, open, key);
        augMap, used := augMap[key := supply(used)], used + 1;
        DeclareCopy(e, env, open, old(used));
      }
      r := Var(augMap[key]);
      RendersName(env, augMap, decls, used, open, e);
    }

    /** assertion_to_sketch.py:43-47: the base is visited before the copy is declared, key and
        value after it, and the cell is set last. */
    method DeclareCopy(e: Exp, ghost env: Env, ghost open: set<string>, ghost first: nat)
      requires e.Aug? && ImplFree(e) && Augs(e) <= env.universe && Vars(e) <= env.program
      requires TreeToStr(e) !in open && Valid(env, open + {TreeToStr(e)})
      requires forall t | t in open :: |TreeToStr(e)| < |t|
      requires TreeToStr(e) in augMap && first < used && augMap[TreeToStr(e)] == env.supply(first)
      requires env.supply(first) !in Declared(decls)
      modifies this
      ensures Valid(env, open) && Grows(env, old(augMap), old(decls), first, augMap, decls, used)
      decreases |TreeToStr(e)|, -1
    {
      hide TreeToStr, Eval, RunDecls, Named, Hold, Renders, ImplFree, Vars, InOrder, Declared, Suitable, Augs, Drawn;
      var key := TreeToStr(e);
      var name := augMap[key];
      ghost var here := open + {key};
      PartTexts(e);
      AugFacts(e);
      ghost var m0, d0, u0 := augMap, decls, used;
      var base := Visit(e.base, env, here);
      StillUndeclared(env, m0, d0, u0, augMap, decls, used, first);
      CopyOne(env, augMap, decls, used, here, key, base, e);
      ghost var d1 := decls;
      decls := decls + [DeclArr(name, base)];
      ghost var m2, d2, u2 := augMap, decls, used;
      var idx, value := VisitTwo(e.key, e.value, env, here);
      CopyTwo(env, m2, d2, u2, here, augMap, decls, used, key, idx, value, e);
      ghost var d3 := decls;
      decls := decls + [SetCell(name, idx, value)];
      GrowsByCopy(env, m0, d0, u0, m2, d1, u2, augMap, d3, used, first, DeclArr(name, base), SetCell(name, idx, value));
    }

    /** The parts of one check, the asserted formula first and the guards from the inside out. */
    method VisitCheck(c: Check, ghost env: Env) returns (r: Check)
      requires Valid(env, {}) && InScope(env, c)
      modifies this
      ensures Valid(env, {}) && Grows(env, old(augMap), old(decls), old(used), augMap, decls, used)
      ensures CheckRenders(env, augMap, decls, r, c)
    {
      hide TreeToStr, Eval, RunDecls, Named, Hold, Suitable, Renders, Grows, ImplFree, Augs, Vars;
      var e := Visit(c.e, env, {});
      var gs: seq<Exp> := [];
      for k := 0 to |c.guards|
        invariant Valid(env, {}) && Grows(env, old(augMap), old(decls), old(used), augMap, decls, used)
        invariant Renders(env, augMap, decls, {}, e, c.e)
        invariant |gs| == k
        invariant forall j | 0 <= j < k :: Renders(env, augMap, decls, {}, gs[j], c.guards[|c.guards| - k + j])
      {
        ghost var m1, d1, u1 := augMap, decls, used;
        var g := Visit(c.guards[|c.guards| - 1 - k], env, {});
        RendersGrows(env, m1, d1, u1, {}, augMap, decls, used, e, c.e);
        forall j | 0 <= j < k ensures Renders(env, augMap, decls, {}, gs[j], c.guards[|c.guards| - k + j]) {
          RendersGrows(env, m1, d1, u1, {}, augMap, decls, used, gs[j], c.guards[|c.guards| - k + j]);
        }
        GrowsTrans(env, old(augMap), old(decls), old(used), m1, d1, u1, augMap, decls, used);
        gs := [g] + gs;
      }
      r := Check(gs, e);
    }

    method VisitChecks(cs: seq<Check>, ghost env: Env) returns (rs: seq<Check>)
      requires Valid(env, {}) && forall i | 0 <= i < |cs| :: InScope(env, cs[i])
      modifies this
      ensures Valid(env, {}) && Grows(env, old(augMap), old(decls), old(used), augMap, decls, used)
      ensures |rs| == |cs| && forall i | 0 <= i < |rs| :: CheckRenders(env, augMap, decls, rs[i], cs[i])
    {
      hide TreeToStr, Eval, RunDecls, Named, Hold, Suitable, CheckRenders, InScope, Grows;
      GrowsSelf(env, augMap, decls, used);
      rs := [];
      for i := 0 to |cs|
        invariant Valid(env, {}) && Grows(env, old(augMap), old(decls), old(used), augMap, decls, used)
        invariant |rs| == i && forall j | 0 <= j < i :: CheckRenders(env, augMap, decls, rs[j], cs[j])
      {
        ghost var m1, d1, u1 := augMap, decls, used;
        var r := VisitCheck(cs[i], env);
        forall j | 0 <= j < i ensures CheckRenders(env, augMap, decls, rs[j], cs[j]) {
          CheckRendersGrows(env, m1, d1, u1, augMap, decls, used, rs[j], cs[j]);
        }
        GrowsTrans(env, old(augMap), old(decls), old(used), m1, d1, u1, augMap, decls, used);
        rs := rs + [r];
      }
    }

    /** assertion_to_sketch.py:36-41: the asserts of the side conditions, then those of the
        returned formula, behind the declarations. The program violates none of its asserts in
        a state exactly when all the formulas hold there. */
    method ToStr(tree: Exp, conds: seq<Exp>, ghost env: Env) returns (asserts: seq<Check>)
      requires augMap == map[] && decls == [] && used == 0 && env.supply == supply && Suitable(env)
      requires Printable(env, tree) && forall i | 0 <= i < |conds| :: Printable(env, conds[i])
      modifies this
      ensures InOrder(decls, env.program) && Declared(decls) == augMap.Values
      ensures forall i | 0 <= i < |asserts| :: Lowered(asserts[i])
      ensures forall s ::
        AllPass(asserts, RunDecls(decls, s, env.m), env.m)
        <==> Holds(tree, s, env.m) && forall i | 0 <= i < |conds| :: Holds(conds[i], s, env.m)
      ensures var checks := ChecksOf(conds) + ChecksOf([tree]);
        && |asserts| == |checks|
        && forall i | 0 <= i < |asserts| :: CheckRenders(env, augMap, decls, asserts[i], checks[i])
    {
      hide TreeToStr, Eval, RunDecls, Suitable, CheckRenders, InScope, Simplify, Emit, InOrder, Declared, AllPass,
        Passes, ChecksOf;
      NoChecksYet(conds);
      OneFormula(tree);
      Initially(env);
      ghost var cs := Emit(Simplify(tree)).value;
      var mine := VisitChecks(Emit(Simplify(tree)).value, env);
      var more: seq<Check> := [];
      ghost var ds: seq<Check> := [];
      NoChecks(env.m);
      for i := 0 to |conds|
        invariant Valid(env, {})
        invariant |mine| == |cs| && forall j | 0 <= j < |mine| :: CheckRenders(env, augMap, decls, mine[j], cs[j])
        invariant |more| == |ds| && forall j | 0 <= j < |more| :: CheckRenders(env, augMap, decls, more[j], ds[j])
        invariant forall s :: AllPass(ds, s, env.m) <==> forall j | 0 <= j < i :: Holds(conds[j], s, env.m)
        invariant ds == ChecksOf(conds[..i])
      {
        ghost var m1, d1, u1 := augMap, decls, used;
        var checks := Emit(Simplify(conds[i])).value;
        var rs := VisitChecks(checks, env);
        forall j | 0 <= j < |mine| ensures CheckRenders(env, augMap, decls, mine[j], cs[j]) {
          CheckRendersGrows(env, m1, d1, u1, augMap, decls, used, mine[j], cs[j]);
        }
        forall j | 0 <= j < |more| ensures CheckRenders(env, augMap, decls, more[j], ds[j]) {
          CheckRendersGrows(env, m1, d1, u1, augMap, decls, used, more[j], ds[j]);
        }
        forall s ensures AllPass(ds + checks, s, env.m) <==> forall j | 0 <= j < i + 1 :: Holds(conds[j], s, env.m) {
          PrintedMeans(env, conds[i], s);
          PassesSplit(ds, checks, s, env.m);
        }
        MoreChecks(conds, i);
        more, ds := more + rs, ds + checks;
      }
      assert conds[..|conds|] == conds;
      asserts := more + mine;
      forall s
        ensures AllPass(asserts, RunDecls(decls, s, env.m), env.m)
          <==> Holds(tree, s, env.m) && forall i | 0 <= i < |conds| :: Holds(conds[i], s, env.m)
      {
        PrintedMeans(env, tree, s);
        PassesSplit(ds, cs, s, env.m);
        ChecksRender(env, augMap, decls, asserts, ds + cs, s);
      }
      forall i | 0 <= i < |asserts|
        ensures Lowered(asserts[i])
      {
        LoweredRender(env, augMap, decls, asserts[i], (ds + cs)[i]);
      }
      AllDeclared(env, augMap, decls, used);
    }
  }

  // ----- checks -----

  /** The checks printed for formulas, in their order. */
  function ChecksOf(es: seq<Exp>): seq<Check> {
    if es == [] then []
    else
      var e := Emit(Simplify(es[|es| - 1]));
      ChecksOf(es[..|es| - 1]) + if e.Some? then e.value else []
  }

  lemma NoChecksYet(es: seq<Exp>)
    ensures ChecksOf(es[..0]) == []
  {
  }

  lemma OneFormula(e: Exp)
    requires Emit(Simplify(e)).Some?
    ensures ChecksOf([e]) == Emit(Simplify(e)).value
  {
    hide Emit, Simplify;
    assert [e][..0] == [];
    assert ChecksOf([e][..0]) == [];
  }

  lemma MoreChecks(es: seq<Exp>, i: nat)
    requires i < |es| && Emit(Simplify(es[i])).Some?
    ensures ChecksOf(es[..i + 1]) == ChecksOf(es[..i]) + Emit(Simplify(es[i])).value
  {
    hide Emit, Simplify;
    assert es[..i + 1][..i] == es[..i];
  }

  ghost predicate InScope(env: Env, c: Check) {
    && ImplFree(c.e) && Augs(c.e) <= env.universe && Vars(c.e) <= env.program
    && forall i | 0 <= i < |c.guards| ::
      ImplFree(c.guards[i]) && Augs(c.guards[i]) <= env.universe && Vars(c.guards[i]) <= env.program
  }

  /** Emission succeeds, into asserts without implications, about known variables and arrays. */
  ghost predicate Printable(env: Env, e: Exp) {
    Emit(Simplify(e)).Some? && forall i | 0 <= i < |Emit(Simplify(e)).value| :: InScope(env, Emit(Simplify(e)).value[i])
  }

  ghost predicate CheckRenders(env: Env, augMap: map<string, string>, decls: seq<Decl>, r: Check, c: Check) {
    && Renders(env, augMap, decls, {}, r.e, c.e) && |r.guards| == |c.guards|
    && forall i | 0 <= i < |r.guards| :: Renders(env, augMap, decls, {}, r.guards[i], c.guards[i])
  }

  /** No augmented array is left. */
  predicate Lowered(c: Check) {
    NoAugs(c.e) && forall i | 0 <= i < |c.guards| :: NoAugs(c.guards[i])
  }

  lemma NoChecks(m: Model)
    ensures forall s :: AllPass([], s, m)
  {
  }

  lemma CheckRendersGrows(env: Env, augMap: map<string, string>, decls: seq<Decl>, used: nat,
                          augMap': map<string, string>, decls': seq<Decl>, used': nat, r: Check, c: Check)
    requires Suitable(env) && Named(env, augMap, decls, used, {})
    requires Grows(env, augMap, decls, used, augMap', decls', used')
    requires CheckRenders(env, augMap, decls, r, c)
    ensures CheckRenders(env, augMap', decls', r, c)
  {
    hide Named, Suitable, Grows, Renders;
    RendersGrows(env, augMap, decls, used, {}, augMap', decls', used', r.e, c.e);
    forall i | 0 <= i < |r.guards| ensures Renders(env, augMap', decls', {}, r.guards[i], c.guards[i]) {
      RendersGrows(env, augMap, decls, used, {}, augMap', decls', used', r.guards[i], c.guards[i]);
    }
  }

  lemma Initially(env: Env)
    requires Suitable(env)
    ensures Named(env, map[], [], 0, {}) && Hold(env, map[], [], {})
  {
  }

  lemma AllDeclared(env: Env, augMap: map<string, string>, decls: seq<Decl>, used: nat)
    requires Named(env, augMap, decls, used, {})
    ensures InOrder(decls, env.program) && Declared(decls) == augMap.Values
  {
    hide InOrder, Declared;
  }

  lemma PrintedMeans(env: Env, e: Exp, s: State)
    requires Printable(env, e)
    ensures AllPass(Emit(Simplify(e)).value, s, env.m) <==> Holds(e, s, env.m)
  {
    hide Simplify, Emit, AllPass, Eval, InScope;
    EmitPreservesMeaning(Simplify(e), s, env.m);
    SimplifyPreservesMeaning(e, s, env.m);
  }

  lemma LoweredRender(env: Env, augMap: map<string, string>, decls: seq<Decl>, r: Check, c: Check)
    requires CheckRenders(env, augMap, decls, r, c)
    ensures Lowered(r)
  {
    hide Augs, Vars, RunDecls, Eval;
  }

  lemma ChecksRender(env: Env, augMap: map<string, string>, decls: seq<Decl>, rs: seq<Check>, cs: seq<Check>, s: State)
    requires |rs| == |cs| && forall i | 0 <= i < |rs| :: CheckRenders(env, augMap, decls, rs[i], cs[i])
    ensures AllPass(rs, RunDecls(decls, s, env.m), env.m) <==> AllPass(cs, s, env.m)
  {
    hide Augs, Vars, RunDecls, Eval, CheckRenders, Passes;
    forall i | 0 <= i < |rs| ensures Passes(rs[i], RunDecls(decls, s, env.m), env.m) <==> Passes(cs[i], s, env.m) {
      CheckRender(env, augMap, decls, rs[i], cs[i], s);
    }
  }

  lemma CheckRender(env: Env, augMap: map<string, string>, decls: seq<Decl>, r: Check, c: Check, s: State)
    requires CheckRenders(env, augMap, decls, r, c)
    ensures Passes(r, RunDecls(decls, s, env.m), env.m) <==> Passes(c, s, env.m)
  {
    hide Augs, Vars, RunDecls, Eval;
    forall i | 0 <= i < |r.guards|
      ensures Holds(r.guards[i], RunDecls(decls, s, env.m), env.m) <==> Holds(c.guards[i], s, env.m)
    {
      assert Renders(env, augMap, decls, {}, r.guards[i], c.guards[i]);
    }
  }

  // ----- the steps of the translator -----

  lemma GrowsSelf(env: Env, augMap: map<string, string>, decls: seq<Decl>, used: nat)
    ensures Grows(env, augMap, decls, used, augMap, decls, used)
  {
  }

  lemma ParamFacts(e: Exp)
    requires e.Call? && ImplFree(e)
    ensures forall i | 0 <= i < |e.params| ::
      ImplFree(e.params[i]) && Augs(e.params[i]) <= Augs(e) && Vars(e.params[i]) <= Vars(e)
  {
  }

  lemma AugFacts(e: Exp)
    requires e.Aug? && ImplFree(e)
    ensures ImplFree(e.base) && ImplFree(e.key) && ImplFree(e.value) && e in Augs(e)
    ensures Augs(e.base) <= Augs(e) && Augs(e.key) <= Augs(e) && Augs(e.value) <= Augs(e)
    ensures Vars(e.base) <= Vars(e) && Vars(e.key) <= Vars(e) && Vars(e.value) <= Vars(e)
  {
  }

  lemma RendersAtom(env: Env, augMap: map<string, string>, decls: seq<Decl>, used: nat, open: set<string>, e: Exp)
    requires Suitable(env) && Named(env, augMap, decls, used, open) && Vars(e) <= env.program
    requires e.True? || e.Var? || e.Num?
    ensures Renders(env, augMap, decls, open, e, e)
  {
    hide InOrder, RunDecls;
    forall s ensures Eval(e, RunDecls(decls, s, env.m), env.m) == Eval(e, s, env.m) {
      if e.Var? { ProgramVarKept(env, augMap, decls, used, open, e.name, s); }
    }
  }

  /** No declaration touches a variable of the program. */
  lemma ProgramVarKept(env: Env, augMap: map<string, string>, decls: seq<Decl>, used: nat, open: set<string>, x: string,
                       s: State)
    requires Suitable(env) && Named(env, augMap, decls, used, open) && x in env.program
    ensures Lookup(RunDecls(decls, s, env.m), x) == Lookup(s, x)
  {
    hide RunDecls;
    forall i | 0 <= i < |decls| ensures decls[i].name != x {
      DeclNames(env, augMap, decls, used, open, i);
    }
    RunDeclsFrame([], decls, x, s, env.m);
    assert [] + decls == decls;
    RunNothing(s, env.m);
  }

  lemma RunNothing(s: State, m: Model)
    ensures RunDecls([], s, m) == s
  {
  }

  lemma DeclNames(env: Env, augMap: map<string, string>, decls: seq<Decl>, used: nat, open: set<string>, i: nat)
    requires Named(env, augMap, decls, used, open) && i < |decls|
    ensures exists j: nat | j < used :: decls[i].name == env.supply(j)
  {
    if !decls[i].DeclArr? {
      assert decls[i].name in Declared(decls[..i]);
      var k :| 0 <= k < i && decls[k].DeclArr? && decls[k].name == decls[i].name;
    }
    assert decls[i].name in Declared(decls);
    var t :| t in augMap && augMap[t] == decls[i].name;
  }

  lemma RendersNode(env: Env, augMap: map<string, string>, decls: seq<Decl>, open: set<string>, r: Exp, e: Exp)
    requires
      || (r.Bin? && e.Bin? && r.op == e.op
          && Renders(env, augMap, decls, open, r.left, e.left)
          && Renders(env, augMap, decls, open, r.right, e.right))
      || (r.Arr? && e.Arr?
          && Renders(env, augMap, decls, open, r.arr, e.arr)
          && Renders(env, augMap, decls, open, r.loc, e.loc))
      || (r.Not? && e.Not? && Renders(env, augMap, decls, open, r.ex, e.ex))
    ensures Renders(env, augMap, decls, open, r, e)
  {
    hide RunDecls, Known, Eval, Vars, Augs;
    PartsOf(r);
    forall s ensures Eval(r, RunDecls(decls, s, env.m), env.m) == Eval(e, s, env.m) {
      SameParts(r, e, RunDecls(decls, s, env.m), s, env.m);
    }
  }

  lemma PartsOf(r: Exp)
    ensures r.Bin? ==> Augs(r) == Augs(r.left) + Augs(r.right) && Vars(r) == Vars(r.left) + Vars(r.right)
    ensures r.Arr? ==> Augs(r) == Augs(r.arr) + Augs(r.loc) && Vars(r) == Vars(r.arr) + Vars(r.loc)
    ensures r.Not? ==> Augs(r) == Augs(r.ex) && Vars(r) == Vars(r.ex)
  {
  }

  lemma SameParts(r: Exp, e: Exp, t: State, s: State, m: Model)
    requires
      || (r.Bin? && e.Bin? && r.op == e.op
          && Eval(r.left, t, m) == Eval(e.left, s, m) && Eval(r.right, t, m) == Eval(e.right, s, m))
      || (r.Arr? && e.Arr? && Eval(r.arr, t, m) == Eval(e.arr, s, m) && Eval(r.loc, t, m) == Eval(e.loc, s, m))
      || (r.Not? && e.Not? && Eval(r.ex, t, m) == Eval(e.ex, s, m))
    ensures Eval(r, t, m) == Eval(e, s, m)
  {
  }

  lemma RendersCall(env: Env, augMap: map<string, string>, decls: seq<Decl>, open: set<string>, f: string, rs: seq<Exp>,
                    ps: seq<Exp>)
    requires |rs| == |ps| && forall i | 0 <= i < |rs| :: Renders(env, augMap, decls, open, rs[i], ps[i])
    ensures Renders(env, augMap, decls, open, Call(f, rs), Call(f, ps))
  {
    hide RunDecls, Known;
    forall i | 0 <= i < |rs| ensures Augs(rs[i]) == {} && Vars(rs[i]) <= Known(env, augMap, open) {
      assert Renders(env, augMap, decls, open, rs[i], ps[i]);
    }
    assert AugsOf(rs) == {} && VarsOf(rs) <= Known(env, augMap, open);
    assert NoAugs(Call(f, rs)) && Vars(Call(f, rs)) == VarsOf(rs);
    forall s ensures Eval(Call(f, rs), RunDecls(decls, s, env.m), env.m) == Eval(Call(f, ps), s, env.m) {
      assert forall i | 0 <= i < |rs| :: Eval(rs[i], RunDecls(decls, s, env.m), env.m) == Eval(ps[i], s, env.m);
      assert EvalAll(rs, RunDecls(decls, s, env.m), env.m) == EvalAll(ps, s, env.m);
    }
  }

  /** The name of a finished copy stands for its augmentation. */
  lemma RendersName(env: Env, augMap: map<string, string>, decls: seq<Decl>, used: nat, open: set<string>, e: Exp)
    requires Suitable(env) && Named(env, augMap, decls, used, open) && Hold(env, augMap, decls, open)
    requires e in env.universe && TreeToStr(e) in augMap && TreeToStr(e) !in open
    ensures Renders(env, augMap, decls, open, Var(augMap[TreeToStr(e)]), e)
  {
    hide TreeToStr, RunDecls, InOrder;
    forall s ensures Eval(Var(augMap[TreeToStr(e)]), RunDecls(decls, s, env.m), env.m) == Eval(e, s, env.m) {}
  }

  lemma StillUndeclared(env: Env, m0: map<string, string>, d0: seq<Decl>, u0: nat, m1: map<string, string>,
                        d1: seq<Decl>, u1: nat, first: nat)
    requires Suitable(env) && Grows(env, m0, d0, u0, m1, d1, u1) && first < u0 && env.supply(first) !in Declared(d0)
    ensures env.supply(first) !in Declared(d1)
  {
    forall i | 0 <= i < |d1| && d1[i].DeclArr? ensures d1[i].name != env.supply(first) {
      if i < |d0| {
        assert d1[i] == d0[i];
      } else {
        assert Drawn(env, d1[i].name, u0, u1);
      }
    }
  }

  /** Declaring the copy gives the name the base array. */
  lemma CopyOne(env: Env, augMap: map<string, string>, decls: seq<Decl>, used: nat, open: set<string>, key: string,
                base: Exp, e: Exp)
    requires e.Aug? && Suitable(env) && Named(env, augMap, decls, used, open) && Hold(env, augMap, decls, open)
    requires key in open && key in augMap && augMap[key] !in Declared(decls)
    requires Renders(env, augMap, decls, open, base, e.base)
    ensures var ds := decls + [DeclArr(augMap[key], base)];
      && Named(env, augMap, ds, used, open) && Hold(env, augMap, ds, open) && augMap[key] in Declared(ds)
      && forall s :: Lookup(RunDecls(ds, s, env.m), augMap[key]) == Eval(e.base, s, env.m)
  {
    hide Eval, InOrder, TreeToStr, Vars, Named, Hold;
    var d := DeclArr(augMap[key], base);
    AddDecl(env, augMap, decls, used, open, key, d);
    DeclaredSnoc(decls, d);
    forall s
      ensures Lookup(RunDecls(decls + [d], s, env.m), augMap[key]) == Eval(e.base, s, env.m)
    {
      RunDeclsSnoc(decls, d, s, env.m);
    }
  }

  /** Setting the cell turns it into the augmented array. */
  lemma CopyTwo(env: Env, m2: map<string, string>, d2: seq<Decl>, u2: nat, open: set<string>,
                augMap: map<string, string>, decls: seq<Decl>, used: nat, key: string, idx: Exp, value: Exp, e: Exp)
    requires e.Aug? && e in env.universe && key == TreeToStr(e) && key in open && Suitable(env)
    requires Named(env, m2, d2, u2, open) && Grows(env, m2, d2, u2, augMap, decls, used) && m2[key] in Declared(d2)
    requires forall s :: Lookup(RunDecls(d2, s, env.m), m2[key]) == Eval(e.base, s, env.m)
    requires Named(env, augMap, decls, used, open) && Hold(env, augMap, decls, open)
    requires Renders(env, augMap, decls, open, idx, e.key) && Renders(env, augMap, decls, open, value, e.value)
    ensures var ds := decls + [SetCell(augMap[key], idx, value)];
      Named(env, augMap, ds, used, open - {key}) && Hold(env, augMap, ds, open - {key})
  {
    hide Eval, InOrder, TreeToStr, Vars, Hold, Suitable, Known;
    var d := SetCell(augMap[key], idx, value);
    var ds := decls + [d];
    var more := decls[|d2|..];
    assert decls == d2 + more;
    forall i | 0 <= i < |more| ensures more[i].name != m2[key] {
      assert m2[key] in m2.Values;
      KnownIsOld(env, m2, d2, u2, open, augMap, decls, used, m2[key], |d2| + i);
    }
    DeclaredGrows(d2, more);
    AddDecl(env, augMap, decls, used, open, key, d);
    DeclaredSnoc(decls, d);
    forall s ensures Lookup(RunDecls(ds, s, env.m), augMap[key]) == Eval(e, s, env.m) {
      RunDeclsSnoc(decls, d, s, env.m);
      RunDeclsFrame(d2, more, m2[key], s, env.m);
      AugValue(e, s, env.m);
    }
    assert open - {key} + {key} == open;
    Finish(env, augMap, ds, used, open - {key}, e);
  }

  lemma AugValue(e: Exp, s: State, m: Model)
    requires e.Aug?
    ensures Eval(e, s, m) == Store(Eval(e.base, s, m), Eval(e.key, s, m), Eval(e.value, s, m))
  {
  }

  lemma DeclaredGrows(ds: seq<Decl>, more: seq<Decl>)
    ensures Declared(ds) <= Declared(ds + more)
  {
    forall n | n in Declared(ds) ensures n in Declared(ds + more) {
      var i :| 0 <= i < |ds| && ds[i].DeclArr? && ds[i].name == n;
      assert (ds + more)[i] == ds[i];
    }
  }

  lemma GrowsByCopy(env: Env, m0: map<string, string>, d0: seq<Decl>, u0: nat, m2: map<string, string>, d1: seq<Decl>,
                    u2: nat,
                    augMap: map<string, string>, d3: seq<Decl>, used: nat, first: nat, c: Decl, d: Decl)
    requires Grows(env, m0, d0, u0, m2, d1, u2) && Grows(env, m2, d1 + [c], u2, augMap, d3, used)
    requires first < u0 && c.name == env.supply(first) && d.name == env.supply(first)
    ensures Grows(env, m0, d0, first, augMap, d3 + [d], used)
  {
    var ds := d3 + [d];
    forall i | |d0| <= i < |ds| ensures Drawn(env, ds[i].name, first, used) {
      if i < |d1| {
        assert ds[i] == (d1 + [c])[i] == d1[i];
        assert Drawn(env, d1[i].name, u0, u2);
      } else if i == |d1| {
        assert ds[i] == (d1 + [c])[i] == c;
      } else if i < |d3| {
        assert ds[i] == d3[i];
        assert Drawn(env, d3[i].name, u2, used);
      }
    }
  }
}
