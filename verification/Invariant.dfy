/** The invariant generator (backend/invariant.py). */
module Invariant {
  import opened StencilIr

  /** Half-open range of a loop variable, as the expressions the generator writes down. */
  datatype Range = Range(lo: Exp, hi: Exp)

  datatype Clause = Clause(ranges: map<string, Range>, outputs: set<string>)

  datatype Info = Info(id: string, invariantsToCall: seq<string>, clauses: seq<Clause>)

  // ----- facts about a program -----

  /** invariant_names_to_loops: every loop under its key (generate_sketch.py:241-247). */
  function LoopsByKey(c: Stmt): map<string, Stmt> {
    match c
    case Seq(c1, c2) => LoopsByKey(c1) + LoopsByKey(c2)
    case While(_, _, body) => map[LoopKey(c) := c] + LoopsByKey(body)
    case _ => map[]
  }

  /** For every loop the loops around it, outermost first (invariant.py:113-132). */
  function Containing(c: Stmt, outer: seq<Stmt>): map<string, seq<Stmt>> {
    match c
    case Seq(c1, c2) => Containing(c1, outer) + Containing(c2, outer)
    case While(_, _, body) => map[LoopKey(c) := outer] + Containing(body, outer + [c])
    case _ => map[]
  }

  /** The statements of a block, in order. */
  function Flatten(c: Stmt): seq<Stmt> {
    if c.Seq? then Flatten(c.init) + Flatten(c.last) else [c]
  }

  function IterVar(c: Stmt): string { if c.While? then c.iterVar else "" }

  function IterVars(cs: seq<Stmt>): seq<string> {
    seq(|cs|, i requires 0 <= i < |cs| => IterVar(cs[i]))
  }

  /** Variables in the indices at which `c` writes array `a` (invariant.py:53-89, for indices
      without array reads). */
  function IndexVars(c: Stmt, a: string): set<string> {
    match c
    case AssignArr(b, loc, _) => if a == b then Vars(loc) else {}
    case Seq(c1, c2) => IndexVars(c1, a) + IndexVars(c2, a)
    case While(_, _, body) => IndexVars(body, a)
    case _ => {}
  }

  function Outputs(c: Stmt): set<string> {
    match c
    case AssignArr(b, _, _) => {b}
    case Seq(c1, c2) => Outputs(c1) + Outputs(c2)
    case While(_, _, body) => Outputs(body)
    case _ => {}
  }

  /** The last assignment to `v` whose right-hand side does not mention `v` (generate_sketch.py:74-101). */
  function FindInit(c: Stmt, v: string): Option<Exp> {
    match c
    case AssignVar(x, e) => if x == v && v !in Vars(e) then Some(e) else None
    case Seq(c1, c2) => if FindInit(c2, v).Some? then FindInit(c2, v) else FindInit(c1, v)
    case While(_, _, body) => FindInit(body, v)
    case _ => None
  }

  /** The bound of the last visited test on `v` (generate_sketch.py:53-72). */
  function FindMax(c: Stmt, v: string): Option<Exp> {
    match c
    case Seq(c1, c2) => if FindMax(c2, v).Some? then FindMax(c2, v) else FindMax(c1, v)
    case While(_, test, body) =>
      if FindMax(body, v).Some? then FindMax(body, v)
      else if test.Bin? && test.left == Var(v) then Some(test.right)
      else None
    case _ => None
  }

  // ----- what the finders find -----

  /** The scalar assignments of a program, in order. */
  function Assignments(c: Stmt): seq<(string, Exp)> {
    match c
    case AssignVar(x, e) => [(x, e)]
    case Seq(c1, c2) => Assignments(c1) + Assignments(c2)
    case While(_, _, body) => Assignments(body)
    case _ => []
  }

  /** The tests of the loops of a program, the outer ones first. */
  function Tests(c: Stmt): seq<Exp> {
    match c
    case Seq(c1, c2) => Tests(c1) + Tests(c2)
    case While(_, test, body) => [test] + Tests(body)
    case _ => []
  }

  predicate Initialises(a: (string, Exp), v: string) { a.0 == v && v !in Vars(a.1) }

  predicate Bounds(test: Exp, v: string) { test.Bin? && test.left == Var(v) }

  /** `r` is the right-hand side of the last assignment to `v` that does not mention `v`, and nothing
      when there is none. */
  ghost predicate IsLastInit(s: seq<(string, Exp)>, v: string, r: Option<Exp>) {
    if r.Some? then
      exists i | 0 <= i < |s| :: s[i] == (v, r.value) && v !in Vars(r.value) && NoneBehind(s, i, v)
    else forall i | 0 <= i < |s| :: !Initialises(s[i], v)
  }

  ghost predicate NoneBehind(s: seq<(string, Exp)>, i: nat, v: string) {
    forall j | i < j < |s| :: !Initialises(s[j], v)
  }

  lemma LastInitOfTwo(s1: seq<(string, Exp)>, s2: seq<(string, Exp)>, v: string, r1: Option<Exp>, r2: Option<Exp>)
    requires IsLastInit(s1, v, r1) && IsLastInit(s2, v, r2)
    ensures IsLastInit(s1 + s2, v, if r2.Some? then r2 else r1)
  {
    hide Initialises, Vars;
    var s := s1 + s2;
    if r2.Some? {
      var i :| 0 <= i < |s2| && s2[i] == (v, r2.value) && v !in Vars(r2.value) && NoneBehind(s2, i, v);
      assert s[|s1| + i] == s2[i];
      forall j | |s1| + i < j < |s| ensures !Initialises(s[j], v) { assert s[j] == s2[j - |s1|]; }
      assert NoneBehind(s, |s1| + i, v);
    } else if r1.Some? {
      var i :| 0 <= i < |s1| && s1[i] == (v, r1.value) && v !in Vars(r1.value) && NoneBehind(s1, i, v);
      assert s[i] == s1[i];
      assert NoneBehind(s, i, v);
    }
  }

  lemma {:induction false} InitIsLast(c: Stmt, v: string)
    ensures IsLastInit(Assignments(c), v, FindInit(c, v))
  {
    hide Vars;
    match c
    case Seq(c1, c2) =>
      InitIsLast(c1, v);
      InitIsLast(c2, v);
      LastInitOfTwo(Assignments(c1), Assignments(c2), v, FindInit(c1, v), FindInit(c2, v));
    case While(_, _, body) => InitIsLast(body, v);
    case AssignVar(x, e) => assert Assignments(c)[0] == (x, e);
    case _ =>
  }

  /** `r` is the bound of the last test on `v`, and nothing when there is none. */
  ghost predicate IsLastBound(s: seq<Exp>, v: string, r: Option<Exp>) {
    if r.Some? then
      exists i | 0 <= i < |s| :: Bounds(s[i], v) && s[i].right == r.value && NoBoundBehind(s, i, v)
    else forall i | 0 <= i < |s| :: !Bounds(s[i], v)
  }

  ghost predicate NoBoundBehind(s: seq<Exp>, i: nat, v: string) { forall j | i < j < |s| :: !Bounds(s[j], v) }

  lemma LastBoundOfTwo(s1: seq<Exp>, s2: seq<Exp>, v: string, r1: Option<Exp>, r2: Option<Exp>)
    requires IsLastBound(s1, v, r1) && IsLastBound(s2, v, r2)
    ensures IsLastBound(s1 + s2, v, if r2.Some? then r2 else r1)
  {
    var s := s1 + s2;
    if r2.Some? {
      var i :| 0 <= i < |s2| && Bounds(s2[i], v) && s2[i].right == r2.value && NoBoundBehind(s2, i, v);
      assert s[|s1| + i] == s2[i];
      forall j | |s1| + i < j < |s| ensures !Bounds(s[j], v) { assert s[j] == s2[j - |s1|]; }
      assert NoBoundBehind(s, |s1| + i, v);
    } else if r1.Some? {
      var i :| 0 <= i < |s1| && Bounds(s1[i], v) && s1[i].right == r1.value && NoBoundBehind(s1, i, v);
      assert s[i] == s1[i];
      assert NoBoundBehind(s, i, v);
    }
  }

  lemma {:induction false} MaxIsLast(c: Stmt, v: string)
    ensures IsLastBound(Tests(c), v, FindMax(c, v))
  {
    match c
    case Seq(c1, c2) =>
      MaxIsLast(c1, v);
      MaxIsLast(c2, v);
      LastBoundOfTwo(Tests(c1), Tests(c2), v, FindMax(c1, v), FindMax(c2, v));
    case While(_, test, body) =>
      MaxIsLast(body, v);
      OneBound(test, v);
      LastBoundOfTwo([test], Tests(body), v, if Bounds(test, v) then Some(test.right) else None, FindMax(body, v));
    case _ =>
  }

  lemma OneBound(test: Exp, v: string)
    ensures IsLastBound([test], v, if Bounds(test, v) then Some(test.right) else None)
  {
    if Bounds(test, v) { assert [test][0] == test && NoBoundBehind([test], 0, v); }
  }

  /** generate_sketch.py:74-101: the visitor keeps what it found last. */
  class InitFinder {
    const loopvar: string
    var init: Option<Exp>

    constructor (loopvar: string)
      ensures this.loopvar == loopvar && init == None
    {
      this.loopvar := loopvar;
      init := None;
    }

    method Visit(c: Stmt)
      modifies this
      ensures init == if FindInit(c, loopvar).Some? then FindInit(c, loopvar) else old(init)
      decreases c
    {
      match c
      case AssignVar(x, e) =>
        if x == loopvar && loopvar !in Vars(e) { init := Some(e); }
      case Seq(c1, c2) =>
        Visit(c1);
        Visit(c2);
      case While(_, _, body) =>
        Visit(body);
      case _ =>
    }
  }

  /** generate_sketch.py:53-72: a loop on another variable is visited twice, before and after its
      own test is looked at; one on the variable itself only after. */
  class MaxFinder {
    const loopvar: string
    var maximum: Option<Exp>

    constructor (loopvar: string)
      ensures this.loopvar == loopvar && maximum == None
    {
      this.loopvar := loopvar;
      maximum := None;
    }

    method Visit(c: Stmt)
      modifies this
      ensures maximum == if FindMax(c, loopvar).Some? then FindMax(c, loopvar) else old(maximum)
      decreases c
    {
      match c
      case Seq(c1, c2) =>
        Visit(c1);
        Visit(c2);
      case While(v, test, body) =>
        if v != loopvar { Visit(body); }
        if test.Bin? && test.left == Var(loopvar) { maximum := Some(test.right); }
        Visit(body);
      case _ =>
    }
  }

  // ----- the generator's tables -----

  datatype Tables = Tables(
    loops: map<string, Stmt>,
    containing: map<string, seq<Stmt>>,
    nesting: map<string, seq<string>>,
    mins: map<string, Exp>,
    maxs: map<string, Exp>,
    program: Stmt)

  function LoopVarsOf(loops: map<string, Stmt>): set<string> { set k | k in loops :: IterVar(loops[k]) }

  /** `nesting` maps every loop variable to the variables of the loops around it, for distinct
      loop variables (invariant.py:92-106). */
  ghost predicate IsNesting(nesting: map<string, seq<string>>, loopvars: set<string>, loops: map<string, Stmt>,
                            containing: map<string, seq<Stmt>>) {
    && nesting.Keys == loopvars
    && (forall k | k in loops && k in containing && IterVar(loops[k]) in loopvars ::
          nesting[IterVar(loops[k])] == IterVars(containing[k]))
    && (forall v | v in loopvars - LoopVarsOf(loops) :: nesting[v] == [])
  }

  /** The tables of a program whose loop variables are `loopvars`. */
  ghost predicate TablesOf(g: Tables, c: Stmt, loopvars: set<string>) {
    && g.program == c && g.loops == LoopsByKey(c) && g.containing == Containing(c, [])
    && IsNesting(g.nesting, loopvars, g.loops, g.containing)
    && (forall v | v in loopvars :: FindInit(c, v).Some? && FindMax(c, v).Some?)
    && g.mins == (map v | v in loopvars :: FindInit(c, v).value)
    && g.maxs == (map v | v in loopvars :: FindMax(c, v).value)
  }

  predicate WellFormedTables(g: Tables) {
    && g.mins.Keys == g.nesting.Keys == g.maxs.Keys
    && g.loops.Keys == g.containing.Keys
    && (forall k | k in g.loops :: g.loops[k].While? && IterVar(g.loops[k]) in g.nesting)
    && (forall k | k in g.containing :: forall w | w in g.containing[k] :: w.While?)
    && (forall v | v in g.nesting :: forall x | x in g.nesting[v] :: x in g.nesting)
  }

  function OutputsOf(g: Tables, v: string): set<string> {
    set a | a in Outputs(g.program) && v in IndexVars(g.program, a)
  }

  function FullRange(g: Tables, v: string): Range
    requires v in g.mins && v in g.maxs
  {
    Range(g.mins[v], g.maxs[v])
  }

  function Current(v: string): Range { Range(Var(v), Bin(Var(v), Add, Num(1))) }

  /** The loop itself up to now, for the current iteration of the loops around it and for all
      iterations of the loops inside it. The entries are made one after the other, and a later
      one replaces an earlier one when loops share a variable; in the outermost block no entry is
      made for the variables around (invariant.py:226-232, invariant.py:247-264). */
  function OwnRanges(g: Tables, key: string): map<string, Range>
    requires WellFormedTables(g) && key in g.loops
  {
    var v := IterVar(g.loops[key]);
    if g.containing[key] == [] then OutermostRanges(g, v) else InnerRanges(g, v)
  }

  lemma RangesUnfold(g: Tables, key: string)
    requires WellFormedTables(g) && key in g.loops
    ensures var v := IterVar(g.loops[key]);
      OwnRanges(g, key) == if g.containing[key] == [] then OutermostRanges(g, v) else InnerRanges(g, v)
  {
    hide OutermostRanges, InnerRanges;
  }

  function OutermostRanges(g: Tables, v: string): map<string, Range>
    requires WellFormedTables(g) && v in g.nesting
  {
    map x | x in g.nesting && (x == v || v in g.nesting[x]) :: OutermostRange(g, v, x)
  }

  function InnerRanges(g: Tables, v: string): map<string, Range>
    requires WellFormedTables(g) && v in g.nesting
  {
    map x | x in g.nesting && (x == v || x in g.nesting[v] || v in g.nesting[x]) :: InnerRange(g, v, x)
  }

  /** The ranges one by one. For a loop inside another the variables of the loops inside it come
      last and keep the full range, though they may be its own or that of a loop around it. */
  ghost predicate EntriesInTurn(g: Tables, key: string, ranges: map<string, Range>)
    requires WellFormedTables(g) && key in g.loops
  {
    var v := IterVar(g.loops[key]);
    if g.containing[key] == [] then
      && (forall x :: x in ranges <==> x in g.nesting && (x == v || v in g.nesting[x]))
      && ranges[v] == Range(g.mins[v], Var(v))
      && (forall x | x in ranges && x != v :: ranges[x] == Range(g.mins[x], g.maxs[x]))
    else
      && (forall x :: x in ranges <==> x in g.nesting && (x == v || x in g.nesting[v] || v in g.nesting[x]))
      && (forall x | x in g.nesting && v in g.nesting[x] :: ranges[x] == Range(g.mins[x], g.maxs[x]))
      && (v !in g.nesting[v] ==> ranges[v] == Range(g.mins[v], Var(v)))
      && (forall x | x in g.nesting[v] && x != v && v !in g.nesting[x] ::
            ranges[x] == Range(Var(x), Bin(Var(x), Add, Num(1))))
  }

  lemma OwnRangesAre(g: Tables, key: string)
    requires WellFormedTables(g) && key in g.loops
    ensures EntriesInTurn(g, key, OwnRanges(g, key))
  {
    hide LoopKey;
  }

  function OutermostRange(g: Tables, v: string, x: string): Range
    requires WellFormedTables(g) && v in g.nesting && x in g.nesting
  {
    if x == v then Range(g.mins[v], Var(v)) else FullRange(g, x)
  }

  function InnerRange(g: Tables, v: string, x: string): Range
    requires WellFormedTables(g) && v in g.nesting && x in g.nesting
  {
    if v in g.nesting[x] then FullRange(g, x)
    else if x == v then Range(g.mins[v], Var(v))
    else Current(x)
  }

  /** With distinct loop variables no entry is replaced. */
  lemma OwnRangeAt(g: Tables, key: string, x: string)
    requires WellFormedTables(g) && key in g.loops && IterVar(g.loops[key]) in g.nesting && x in g.nesting
    requires var v := IterVar(g.loops[key]);
      && v !in g.nesting[v] && !(x in g.nesting[v] && v in g.nesting[x])
      && (g.containing[key] == [] ==> g.nesting[v] == [])
    ensures var v := IterVar(g.loops[key]);
      && (x in OwnRanges(g, key) <==> x == v || x in g.nesting[v] || v in g.nesting[x])
      && (x in OwnRanges(g, key) ==>
            OwnRanges(g, key)[x] == if x == v then Range(g.mins[v], Var(v))
                                    else if x in g.nesting[v] then Current(x) else FullRange(g, x))
  {
    hide LoopKey, WellFormedTables;
  }

  /** The same, entry after entry. */
  lemma InnerRangesInTurn(g: Tables, v: string)
    requires WellFormedTables(g) && v in g.nesting
    ensures InnerRanges(g, v) == (map x | x in g.nesting[v] :: Current(x))[v := Range(g.mins[v], Var(v))]
      + map x | x in g.nesting && v in g.nesting[x] :: FullRange(g, x)
  {
    hide Current, FullRange;
  }

  function CurrentClause(g: Tables, key: string): Clause
    requires WellFormedTables(g) && key in g.loops
  {
    Clause(OwnRanges(g, key), OutputsOf(g, IterVar(g.loops[key])))
  }

  /** All iterations of a sibling loop, for the current iteration of the loops around it
      (invariant.py:196-212). */
  function SiblingClause(g: Tables, v: string): Clause
    requires WellFormedTables(g) && v in g.nesting
  {
    Clause(map x | x in g.nesting && (x == v || x in g.nesting[v]) :: if x == v then FullRange(g, v) else Current(x),
           OutputsOf(g, v))
  }

  /** Its ranges one by one, also when loops share a variable. */
  lemma SiblingRangesAre(g: Tables, v: string)
    requires WellFormedTables(g) && v in g.nesting
    ensures SiblingEntries(g, v, SiblingClause(g, v).ranges)
  {
    hide LoopKey;
  }

  /** What `generate_invariant` returns, given the earlier siblings in the order found. */
  function InfoFor(g: Tables, key: string, siblings: seq<string>): Info
    requires WellFormedTables(g) && key in g.loops && forall k | k in siblings :: k in g.loops
  {
    var outer := g.containing[key];
    Info(key,
         if outer == [] then [] else [LoopKey(outer[|outer| - 1])],
         (if outer == [] then []
          else seq(|siblings|, i requires 0 <= i < |siblings| => SiblingClause(g, IterVar(g.loops[siblings[i]]))))
         + [CurrentClause(g, key)])
  }

  /** The clause has these outputs: the arrays an index of which mentions the variable. */
  ghost predicate ListsOutputs(g: Tables, v: string, c: Clause) {
    forall a :: a in c.outputs <==> a in Outputs(g.program) && v in IndexVars(g.program, a)
  }

  /** The full range of a sibling, and the current values of the loops around it. */
  ghost predicate SiblingEntries(g: Tables, v: string, ranges: map<string, Range>)
    requires WellFormedTables(g) && v in g.nesting
  {
    && (forall x :: x in ranges <==> x == v || x in g.nesting[v])
    && ranges[v] == Range(g.mins[v], g.maxs[v])
    && (forall x | x in g.nesting[v] && x != v :: ranges[x] == Range(Var(x), Bin(Var(x), Add, Num(1))))
  }

  /** The parent's invariant is called, and there is one clause for each sibling, in their order,
      and at the end the one for the loop itself. */
  ghost predicate IsInfo(g: Tables, key: string, siblings: seq<string>, info: Info)
    requires WellFormedTables(g) && key in g.loops && forall k | k in siblings :: k in g.loops
  {
    var outer := g.containing[key];
    && info.id == key
    && info.invariantsToCall == (if outer == [] then [] else [StmtToStr(outer[|outer| - 1])])
    && |info.clauses| == (if outer == [] then 1 else |siblings| + 1)
    && (forall i | 0 <= i < |info.clauses| - 1 ::
          && SiblingEntries(g, IterVar(g.loops[siblings[i]]), info.clauses[i].ranges)
          && ListsOutputs(g, IterVar(g.loops[siblings[i]]), info.clauses[i]))
    && EntriesInTurn(g, key, info.clauses[|info.clauses| - 1].ranges)
    && ListsOutputs(g, IterVar(g.loops[key]), info.clauses[|info.clauses| - 1])
  }

  lemma InfoForIs(g: Tables, key: string, siblings: seq<string>)
    requires WellFormedTables(g) && key in g.loops && forall k | k in siblings :: k in g.loops
    ensures IsInfo(g, key, siblings, InfoFor(g, key, siblings))
  {
    hide StmtToStr, OwnRanges, EntriesInTurn, SiblingEntries, IndexVars, Outputs, IterVar;
    OwnRangesAre(g, key);
    ListsTheirOutputs(g, IterVar(g.loops[key]), OwnRanges(g, key));
    forall i | 0 <= i < |siblings|
      ensures SiblingEntries(g, IterVar(g.loops[siblings[i]]), SiblingClause(g, IterVar(g.loops[siblings[i]])).ranges)
      ensures ListsOutputs(g, IterVar(g.loops[siblings[i]]), SiblingClause(g, IterVar(g.loops[siblings[i]])))
    {
      assert siblings[i] in siblings;
      SiblingRangesAre(g, IterVar(g.loops[siblings[i]]));
      ListsTheirOutputs(g, IterVar(g.loops[siblings[i]]),
                        SiblingClause(g, IterVar(g.loops[siblings[i]])).ranges);
    }
  }

  lemma ListsTheirOutputs(g: Tables, v: string, ranges: map<string, Range>)
    ensures ListsOutputs(g, v, Clause(ranges, OutputsOf(g, v)))
  {
    hide IndexVars, Outputs;
  }

  /** All clauses of an invariant and of the invariants it calls. */
  function Reached(infos: map<string, Info>, id: string, fuel: nat): seq<Clause>
    decreases fuel, 0
  {
    if id !in infos || fuel == 0 then []
    else infos[id].clauses + ReachedAll(infos, infos[id].invariantsToCall, fuel - 1)
  }

  function ReachedAll(infos: map<string, Info>, ids: seq<string>, fuel: nat): seq<Clause>
    decreases fuel, |ids| + 1
  {
    if ids == [] then [] else Reached(infos, ids[0], fuel) + ReachedAll(infos, ids[1..], fuel)
  }

  lemma ReachedStep(infos: map<string, Info>, id: string, fuel: nat)
    requires id in infos && fuel > 0 && |infos[id].invariantsToCall| <= 1
    ensures Reached(infos, id, fuel) == infos[id].clauses
      + if infos[id].invariantsToCall == [] then [] else Reached(infos, infos[id].invariantsToCall[0], fuel - 1)
  {
    var calls := infos[id].invariantsToCall;
    if calls != [] {
      assert calls[1..] == [];
      assert ReachedAll(infos, calls, fuel - 1) == Reached(infos, calls[0], fuel - 1);
    }
  }

  // ----- the visitors and the generator, as they run -----

  lemma ContainingUnfold(c: Stmt, outer: seq<Stmt>)
    ensures Containing(c, outer) ==
      if c.Seq? then Containing(c.init, outer) + Containing(c.last, outer)
      else if c.While? then map[LoopKey(c) := outer] + Containing(c.body, outer + [c])
      else map[]
  {
    hide LoopKey;
  }

  /** invariant.py:113-132: the stack of enclosing loops is pushed and popped in place. */
  class ContainingLoopVisitor {
    var containingLoops: map<string, seq<Stmt>>
    var currentOuterloops: seq<Stmt>

    constructor ()
      ensures containingLoops == map[] && currentOuterloops == []
    {
      containingLoops := map[];
      currentOuterloops := [];
    }

    method Visit(c: Stmt)
      modifies this
      ensures currentOuterloops == old(currentOuterloops)
      ensures containingLoops == old(containingLoops) + Containing(c, old(currentOuterloops))
      decreases c
    {
      hide LoopKey, Containing;
      ContainingUnfold(c, currentOuterloops);
      match c
      case Seq(c1, c2) =>
        Visit(c1);
        Visit(c2);
      case While(_, _, body) =>
        containingLoops := containingLoops[LoopKey(c) := currentOuterloops];
        currentOuterloops := currentOuterloops + [c];
        Visit(body);
        currentOuterloops := currentOuterloops[..|currentOuterloops| - 1];
      case _ =>
    }
  }

  method AppendIterVars(nesting: map<string, seq<string>>, v: string, outer: seq<Stmt>)
    returns (r: map<string, seq<string>>)
    requires v in nesting
    ensures r == nesting[v := nesting[v] + IterVars(outer)]
  {
    r := nesting;
    for i := 0 to |outer|
      invariant r.Keys == nesting.Keys && r[v] == nesting[v] + IterVars(outer[..i])
      invariant forall x | x in nesting && x != v :: r[x] == nesting[x]
    {
      assert IterVars(outer[..i + 1]) == IterVars(outer[..i]) + [IterVar(outer[i])];
      r := r[v := r[v] + [IterVar(outer[i])]];
    }
    assert outer[..|outer|] == outer;
  }

  /** The variables around all loops with variable `v`, the loops taken in the given order. */
  function Gathered(v: string, order: seq<string>, loops: map<string, Stmt>,
                    containing: map<string, seq<Stmt>>): seq<string>
    requires loops.Keys == containing.Keys && forall k | k in order :: k in loops
  {
    if order == [] then []
    else
      var k := order[|order| - 1];
      Gathered(v, order[..|order| - 1], loops, containing)
        + if IterVar(loops[k]) == v then IterVars(containing[k]) else []
  }

  predicate NoRepeats(order: seq<string>) { forall i, j | 0 <= i < j < |order| :: order[i] != order[j] }

  /** invariant.py:92-106: the dictionary of loops is walked in some order, and every variable
      gathers what is around its loops; with distinct variables that is what is around its loop. */
  method FindLoopvarNesting(loopvars: set<string>, loops: map<string, Stmt>, containing: map<string, seq<Stmt>>)
    returns (nesting: map<string, seq<string>>, ghost order: seq<string>)
    requires loops.Keys == containing.Keys
    requires forall k | k in loops :: IterVar(loops[k]) in loopvars
    ensures NoRepeats(order) && forall k :: k in order <==> k in loops
    ensures nesting.Keys == loopvars && forall v | v in loopvars :: nesting[v] == Gathered(v, order, loops, containing)
    ensures (forall k, l | k in loops && l in loops && k != l :: IterVar(loops[k]) != IterVar(loops[l]))
      ==> IsNesting(nesting, loopvars, loops, containing)
  {
    hide IterVar, IterVars, NoRepeats, Gathered, IsNesting;
    nesting := map v | v in loopvars :: [];
    order := [];
    NothingGathered(loops, containing);
    var todo := loops.Keys;
    while todo != {}
      invariant todo <= loops.Keys && NoRepeats(order) && forall k :: k in order <==> k in loops.Keys - todo
      invariant nesting.Keys == loopvars
      invariant forall v | v in loopvars :: nesting[v] == Gathered(v, order, loops, containing)
      decreases todo
    {
      var k :| k in todo;
      OneMoreGathered(order, k, loops, containing);
      nesting := AppendIterVars(nesting, IterVar(loops[k]), containing[k]);
      order, todo := order + [k], todo - {k};
    }
    if forall k, l | k in loops && l in loops && k != l :: IterVar(loops[k]) != IterVar(loops[l]) {
      GatheredIsNesting(nesting, loopvars, order, loops, containing);
    }
  }

  lemma NothingGathered(loops: map<string, Stmt>, containing: map<string, seq<Stmt>>)
    requires loops.Keys == containing.Keys
    ensures NoRepeats([]) && forall v :: Gathered(v, [], loops, containing) == []
  {
  }

  lemma OneMoreGathered(order: seq<string>, k: string, loops: map<string, Stmt>, containing: map<string, seq<Stmt>>)
    requires loops.Keys == containing.Keys && (forall l | l in order :: l in loops) && k in loops && k !in order
    requires NoRepeats(order)
    ensures NoRepeats(order + [k]) && forall l :: l in order + [k] <==> l in order || l == k
    ensures forall v ::
      Gathered(v, order + [k], loops, containing)
        == Gathered(v, order, loops, containing) + if IterVar(loops[k]) == v then IterVars(containing[k]) else []
  {
    hide IterVars, IterVar;
    assert (order + [k])[..|order|] == order;
  }

  lemma GatheredIsNesting(nesting: map<string, seq<string>>, loopvars: set<string>, order: seq<string>,
                          loops: map<string, Stmt>,
                          containing: map<string, seq<Stmt>>)
    requires loops.Keys == containing.Keys && NoRepeats(order) && forall k :: k in order <==> k in loops
    requires nesting.Keys == loopvars && forall v | v in loopvars :: nesting[v] == Gathered(v, order, loops, containing)
    requires forall k, l | k in loops && l in loops && k != l :: IterVar(loops[k]) != IterVar(loops[l])
    ensures IsNesting(nesting, loopvars, loops, containing)
  {
    hide IterVar, IterVars, NoRepeats, Gathered, LoopVarsOf;
    forall k | k in loops ensures Gathered(IterVar(loops[k]), order, loops, containing) == IterVars(containing[k]) {
      GatheredOnce(k, order, loops, containing);
    }
    forall v | v in loopvars - LoopVarsOf(loops) ensures Gathered(v, order, loops, containing) == [] {
      GatheredNone(v, order, loops, containing);
    }
  }

  lemma {:induction false} GatheredNone(v: string, order: seq<string>, loops: map<string, Stmt>,
                                        containing: map<string, seq<Stmt>>)
    requires loops.Keys == containing.Keys && (forall k | k in order :: k in loops) && v !in LoopVarsOf(loops)
    ensures Gathered(v, order, loops, containing) == []
  {
    if order != [] {
      var k := order[|order| - 1];
      assert IterVar(loops[k]) in LoopVarsOf(loops);
      GatheredNone(v, order[..|order| - 1], loops, containing);
    }
  }

  lemma {:induction false} GatheredOnce(k: string, order: seq<string>, loops: map<string, Stmt>,
                                        containing: map<string, seq<Stmt>>)
    requires loops.Keys == containing.Keys && (forall l | l in order :: l in loops) && k in loops && NoRepeats(order)
    requires forall l | l in loops && l != k :: IterVar(loops[l]) != IterVar(loops[k])
    ensures Gathered(IterVar(loops[k]), order, loops, containing) == if k in order then IterVars(containing[k]) else []
  {
    if order != [] {
      var front := order[..|order| - 1];
      assert order == front + [order[|order| - 1]];
      GatheredOnce(k, front, loops, containing);
    }
  }

  function IndexOf(cs: seq<Stmt>, c: Stmt): (i: nat)
    requires c in cs
    ensures i < |cs| && cs[i] == c && forall j | 0 <= j < i :: cs[j] != c
  {
    if cs[0] == c then 0 else 1 + IndexOf(cs[1..], c)
  }

  ghost predicate StandsEarlier(block: seq<Stmt>, c: Stmt, d: Stmt) {
    c in block && d in block && IndexOf(block, c) < IndexOf(block, d)
  }

  lemma ComparePlaces(block: seq<Stmt>, c: Stmt, d: Stmt)
    requires c in block && d in block
    ensures StandsEarlier(block, c, d) <==> IndexOf(block, c) < IndexOf(block, d)
  {
  }

  class InvariantGenerator {
    const g: Tables

    constructor (g: Tables)
      ensures this.g == g
    {
      this.g := g;
    }

    /** Two loops with the same innermost enclosing loop (invariant.py:175-183). */
    predicate Siblings(i: string, key: string)
      requires i in g.containing && key in g.containing && g.containing[key] != []
    {
      i != key && g.containing[i] != []
        && g.containing[i][|g.containing[i]| - 1] == g.containing[key][|g.containing[key]| - 1]
    }

    /** A sibling that stands earlier in the parent's block. */
    ghost predicate IsPrevious(i: string, key: string)
      requires key in g.loops && g.containing.Keys == g.loops.Keys && (forall w | w in g.containing[key] :: w.While?)
    {
      && i in g.loops && g.containing[key] != [] && Siblings(i, key)
      && StandsEarlier(Flatten(g.containing[key][|g.containing[key]| - 1].body), g.loops[i], g.loops[key])
    }

    /** Every loop stands in the body of its parent. */
    ghost predicate InTheirBlocks()
      requires WellFormedTables(g)
    {
      forall i | i in g.loops && g.containing[i] != [] ::
        g.loops[i] in Flatten(g.containing[i][|g.containing[i]| - 1].body)
    }

    /** invariant.py:169-194; the order in which the siblings are met is the dictionary's. */
    method FindPreviousSiblingLoops(key: string) returns (previous: seq<string>)
      requires WellFormedTables(g) && key in g.loops && InTheirBlocks()
      ensures forall a, b | 0 <= a < b < |previous| :: previous[a] != previous[b]
      ensures forall i :: i in previous <==> IsPrevious(i, key)
    {
      hide StandsEarlier, Flatten, IterVar;
      previous := [];
      var outer := g.containing[key];
      if outer == [] { return; }
      var siblings := set i | i in g.containing && Siblings(i, key);
      var block := Flatten(outer[|outer| - 1].body);
      var myLoc := IndexOf(block, g.loops[key]);
      var todo := siblings;
      while todo != {}
        invariant todo <= siblings
        invariant forall a, b | 0 <= a < b < |previous| :: previous[a] != previous[b]
        invariant forall i :: i in previous <==> i in siblings - todo && StandsEarlier(block, g.loops[i], g.loops[key])
        decreases todo
      {
        var i :| i in todo;
        ComparePlaces(block, g.loops[i], g.loops[key]);
        if myLoc > IndexOf(block, g.loops[i]) {
          previous := previous + [i];
        }
        todo := todo - {i};
      }
    }

    /** invariant.py:214-268. */
    method GenerateInvariant(key: string) returns (info: Info, previous: seq<string>)
      requires WellFormedTables(g) && key in g.loops && InTheirBlocks()
      ensures forall i | i in previous :: i in g.loops
      ensures info == InfoFor(g, key, previous)
      ensures forall i :: i in previous <==> IsPrevious(i, key)
      ensures IsInfo(g, key, previous, info)
    {
      hide IsInfo, OwnRanges, OutputsOf, SiblingClause, StandsEarlier, Flatten, IterVar;
      var outer := g.containing[key];
      var calls: seq<string>, clauses: seq<Clause> := [], [];
      previous := [];
      if outer != [] {
        calls := [LoopKey(outer[|outer| - 1])];
        previous := FindPreviousSiblingLoops(key);
        assert forall j | 0 <= j < |previous| :: previous[j] in previous && IsPrevious(previous[j], key);
        for i := 0 to |previous|
          invariant clauses == seq(i, j requires 0 <= j < i => SiblingClause(g, IterVar(g.loops[previous[j]])))
        {
          var clause := AddClauseForSibling(previous[i]);
          clauses := clauses + [clause];
        }
      }
      var ranges := FindRanges(key);
      info := Info(key, calls, clauses + [Clause(ranges, OutputsOf(g, IterVar(g.loops[key])))]);
      InfoForIs(g, key, previous);
    }

    /** invariant.py:226-232 and invariant.py:247-264: one dictionary, its entries set in turn. */
    method FindRanges(key: string) returns (ranges: map<string, Range>)
      requires WellFormedTables(g) && key in g.loops
      ensures ranges == OwnRanges(g, key)
      ensures EntriesInTurn(g, key, ranges)
    {
      hide OwnRanges, EntriesInTurn, OutermostRanges, InnerRanges, IterVar;
      OwnRangesAre(g, key);
      RangesUnfold(g, key);
      if g.containing[key] == [] {
        ranges := FindOutermostRanges(IterVar(g.loops[key]));
      } else {
        ranges := FindInnerRanges(IterVar(g.loops[key]));
      }
    }

    method FindInnerRanges(v: string) returns (ranges: map<string, Range>)
      requires WellFormedTables(g) && v in g.nesting
      ensures ranges == InnerRanges(g, v)
    {
      hide InnerRanges, InnerRange, Current, FullRange;
      InnerRangesInTurn(g, v);
      ranges := map[];
      for i := 0 to |g.nesting[v]|
        invariant ranges == map x | x in g.nesting[v][..i] :: Current(x)
      {
        ranges := ranges[g.nesting[v][i] := Current(g.nesting[v][i])];
      }
      assert g.nesting[v][..|g.nesting[v]|] == g.nesting[v];
      ranges := ranges[v := Range(g.mins[v], Var(v))];
      ranges := AddContained(v, ranges);
    }

    /** invariant.py:196-212. */
    method AddClauseForSibling(sibling: string) returns (clause: Clause)
      requires WellFormedTables(g) && sibling in g.loops
      ensures clause == SiblingClause(g, IterVar(g.loops[sibling]))
    {
      var v := IterVar(g.loops[sibling]);
      var ranges: map<string, Range> := map[];
      for i := 0 to |g.nesting[v]|
        invariant ranges == map x | x in g.nesting[v][..i] :: Current(x)
      {
        ranges := ranges[g.nesting[v][i] := Current(g.nesting[v][i])];
      }
      ranges := ranges[v := FullRange(g, v)];
      clause := Clause(ranges, OutputsOf(g, v));
    }

    method FindOutermostRanges(v: string) returns (ranges: map<string, Range>)
      requires WellFormedTables(g) && v in g.nesting
      ensures ranges == OutermostRanges(g, v)
    {
      ranges := map[];
      var todo := g.nesting.Keys;
      while todo != {}
        invariant todo <= g.nesting.Keys
        invariant forall x :: x in ranges <==> x in g.nesting && x !in todo && (x == v || v in g.nesting[x])
        invariant forall x | x in ranges :: ranges[x] == OutermostRange(g, v, x)
        decreases todo
      {
        var x :| x in todo;
        if x == v {
          ranges := ranges[x := Range(g.mins[x], Var(x))];
        } else if v in g.nesting[x] {
          ranges := ranges[x := FullRange(g, x)];
        }
        todo := todo - {x};
      }
    }

    method AddContained(v: string, before: map<string, Range>) returns (ranges: map<string, Range>)
      requires WellFormedTables(g) && v in g.nesting
      ensures ranges == before + map x | x in g.nesting && v in g.nesting[x] :: FullRange(g, x)
    {
      ranges := before;
      var todo := g.nesting.Keys;
      while todo != {}
        invariant todo <= g.nesting.Keys
        invariant forall x :: x in ranges <==> x in before || (x in g.nesting && x !in todo && v in g.nesting[x])
        invariant forall x | x in ranges ::
            ranges[x] == if x in g.nesting && x !in todo && v in g.nesting[x] then FullRange(g, x) else before[x]
        decreases todo
      {
        var x :| x in todo;
        if v in g.nesting[x] {
          ranges := ranges[x := FullRange(g, x)];
        }
        todo := todo - {x};
      }
    }
  }
}
