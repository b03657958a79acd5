/** The whole chain for perfect nests: the program ends, and it ends with every point done. */
module NestRuns {
  import opened StencilIr
  import opened Interpret
  import opened Verify
  import opened VerifyTheorems
  import opened Completeness
  import opened Termination
  import opened Invariant
  import opened Nest
  import opened NestMeaning
  import opened NestVcs

  /** Every variable the nest mentions. */
  function NestVars(P: NestProg): set<string> {
    P.Changing() + Vars(P.idx) + Vars(P.rhs)
    + set i, x | 0 <= i < P.Depth() && x in Vars(P.levels[i].lo) + Vars(P.levels[i].hi) :: x
  }

  // ----- the tables and infos of a nest exist -----

  lemma NestLoops(P: NestProg)
    requires P.WellFormed()
    ensures LoopsByKey(P.Program()).Keys == Containing(P.Program(), []).Keys == set k | 0 <= k < P.Depth() :: P.Key(k)
    ensures forall k | 0 <= k < P.Depth() ::
      LoopsByKey(P.Program())[P.Key(k)] == P.Loop(k) && Containing(P.Program(), [])[P.Key(k)] == Around(P, k)
    ensures forall k | 0 <= k < P.Depth() :: IterVar(P.Loop(k)) == P.levels[k].v
  {
    hide NestProg.Key, LoopsByKey, Containing, Around, NestProg.From, NestProg.Loop, NestProg.Fixed;
    LoopsByKeyFrom(P, 0);
    AroundNone(P);
    ContainingFrom(P, 0);
    forall k | 0 <= k < P.Depth() ensures IterVar(P.Loop(k)) == P.levels[k].v { LoopShape(P, k); }
  }

  ghost function NestNestingMap(P: NestProg): (r: map<string, seq<string>>)
    requires P.WellFormed()
    ensures r.Keys == P.LoopVars()
    ensures forall i | 0 <= i < P.Depth() :: r[P.levels[i].v] == IterVars(Around(P, i))
  {
    hide IterVars, Around, NestProg.Fixed;
    map i | 0 <= i < P.Depth() :: P.levels[i].v := IterVars(Around(P, i))
  }

  lemma NestingExists(P: NestProg) returns (nesting: map<string, seq<string>>)
    requires P.WellFormed()
    ensures IsNesting(nesting, P.LoopVars(), LoopsByKey(P.Program()), Containing(P.Program(), []))
  {
    hide NestProg.Key, LoopsByKey, Containing, IterVars, Around, IterVar, NestNestingMap, NestProg.From, NestProg.Loop,
      NestProg.WellFormed;
    NestLoops(P);
    nesting := NestNestingMap(P);
    var loops, around := LoopsByKey(P.Program()), Containing(P.Program(), []);
    forall key | key in loops ensures nesting[IterVar(loops[key])] == IterVars(around[key]) {
      var k :| 0 <= k < P.Depth() && key == P.Key(k);
    }
    forall v | v in P.LoopVars() ensures v in LoopVarsOf(loops) {
      var k :| 0 <= k < P.Depth() && v == P.levels[k].v;
      assert P.Key(k) in loops && IterVar(loops[P.Key(k)]) == P.levels[k].v;
    }
  }

  lemma TablesExist(P: NestProg) returns (g: Tables)
    requires P.WellFormed()
    ensures TablesOf(g, P.Program(), P.LoopVars())
  {
    hide FindInit, FindMax, LoopsByKey, Containing, NestProg.From, NestProg.Fixed, IsNesting;
    var c := P.Program();
    forall k | 0 <= k < P.Depth()
      ensures FindInit(c, P.levels[k].v).Some? && FindMax(c, P.levels[k].v).Some?
    {
      BoundsFrom(P, 0, k);
    }
    var nesting := NestingExists(P);
    g := Tables(LoopsByKey(c), Containing(c, []), nesting,
                map v | v in P.LoopVars() :: FindInit(c, v).value,
                map v | v in P.LoopVars() :: FindMax(c, v).value, c);
  }

  lemma InfosExist(P: NestProg) returns (g: Tables, infos: map<string, Info>)
    requires P.WellFormed()
    ensures Generated(P, g, infos)
  {
    hide NestProg.Key, NestProg.Fixed, TablesOf, WellFormedTables, InfoFor;
    g := TablesExist(P);
    NestTables(P, g);
    infos := map k | k in g.loops :: InfoFor(g, k, []);
  }

  // ----- states and models that look alike to the nest -----

  ghost predicate Alike(P: NestProg, s: State, t: State, m: Model, m': Model) {
    m.bin == m'.bin && forall x | x in NestVars(P) :: Lookup(s, x) == Lookup(t, x)
  }

  lemma PlainAlike(P: NestProg, e: Exp, s: State, t: State, m: Model, m': Model)
    requires Plain(e) && m.bin == m'.bin && forall x | x in Vars(e) :: Lookup(s, x) == Lookup(t, x)
    ensures Eval(e, s, m) == Eval(e, t, m')
  {
    hide Eval, Plain, Vars;
    Coincidence(e, s, t, m);
    PlainIgnoresCalls(e, t, m, m');
  }

  lemma PointAlike(P: NestProg, p: seq<int>, s: State, t: State, m: Model, m': Model)
    requires P.WellFormed() && Alike(P, s, t, m, m') && |p| == P.Depth()
    ensures Idx(P, p, s, m) == Idx(P, p, t, m') && Rhs(P, p, s, m) == Rhs(P, p, t, m')
    ensures Done(P, p, s, m) == Done(P, p, t, m')
  {
    hide Eval, Plain, Vars, NoArrays, NestProg.Fixed;
    forall x | x in Vars(P.idx) + Vars(P.rhs) ensures Lookup(At(P, s, p), x) == Lookup(At(P, t, p), x) {
      AtLookup(P, s, p, x);
      AtLookup(P, t, p, x);
    }
    PlainAlike(P, P.idx, At(P, s, p), At(P, t, p), m, m');
    PlainAlike(P, P.rhs, At(P, s, p), At(P, t, p), m, m');
  }

  lemma BoundsAlike(P: NestProg, i: nat, s: State, t: State, m: Model, m': Model)
    requires P.WellFormed() && Alike(P, s, t, m, m') && i < P.Depth()
    ensures Eval(P.levels[i].lo, s, m) == Eval(P.levels[i].lo, t, m')
    ensures Eval(P.levels[i].hi, s, m) == Eval(P.levels[i].hi, t, m')
    ensures Lookup(s, P.levels[i].v) == Lookup(t, P.levels[i].v)
  {
    hide Eval, Plain, Vars, NoArrays;
    assert P.Fixed(P.levels[i].lo) && P.Fixed(P.levels[i].hi);
    forall x | x in Vars(P.levels[i].lo) + Vars(P.levels[i].hi) + {P.levels[i].v} ensures Lookup(s, x) == Lookup(t, x) {
      assert x in NestVars(P);
    }
    PlainAlike(P, P.levels[i].lo, s, t, m, m');
    PlainAlike(P, P.levels[i].hi, s, t, m, m');
  }

  lemma MeaningAlike(P: NestProg, s: State, t: State, m: Model, m': Model)
    requires P.WellFormed() && Alike(P, s, t, m, m')
    ensures Assumed(P, s, m) ==> Assumed(P, t, m')
    ensures AllDone(P, s, m) ==> AllDone(P, t, m')
    ensures forall k | 0 <= k < P.Depth() && Prefix(P, k, s, m) :: Prefix(P, k, t, m')
  {
    hide Eval, NestProg.Fixed, Done, Idx, Rhs, Alike;
    forall i | 0 <= i < P.Depth()
      ensures Eval(P.levels[i].lo, s, m) == Eval(P.levels[i].lo, t, m')
      ensures Eval(P.levels[i].hi, s, m) == Eval(P.levels[i].hi, t, m')
      ensures Lookup(s, P.levels[i].v) == Lookup(t, P.levels[i].v)
    {
      BoundsAlike(P, i, s, t, m, m');
    }
    forall p | |p| == P.Depth()
      ensures Idx(P, p, s, m) == Idx(P, p, t, m') && Done(P, p, s, m) == Done(P, p, t, m')
    {
      PointAlike(P, p, s, t, m, m');
    }
    assert forall p :: InBox(P, p, s, m) == InBox(P, p, t, m');
    BeforeAlike(P, s, t, m);
  }

  lemma BeforeAlike(P: NestProg, s: State, t: State, m: Model)
    requires forall i | 0 <= i < P.Depth() :: Lookup(s, P.levels[i].v) == Lookup(t, P.levels[i].v)
    ensures forall k, p | 0 <= k < P.Depth() && |p| == P.Depth() :: Before(P, k, p, s) == Before(P, k, p, t)
  {
    assert forall j, p | 0 <= j <= P.Depth() && |p| == P.Depth() :: Agrees(P, j, p, s) == Agrees(P, j, p, t);
  }

  // ----- a model that reads the invariant calls as generated -----

  ghost function NestModel(P: NestProg, infos: map<string, Info>, vars: seq<string>, m: Model): Model
    requires P.WellFormed()
  {
    Model(m.bin, (f: string, values: seq<Value>) =>
      if f == "postcondition" then AllDone(P, StateOf(vars, values), m)
      else exists k | 0 <= k < P.Depth() && f == InvName(P.Key(k)) :: Means(P, infos, k, StateOf(vars, values), m))
  }

  lemma StateOfIsAlike(P: NestProg, vars: seq<string>, s: State, m: Model, m': Model)
    requires m.bin == m'.bin && forall x | x in NestVars(P) :: x in vars
    ensures Alike(P, StateOf(vars, seq(|vars|, i requires 0 <= i < |vars| => Lookup(s, vars[i]))), s, m, m')
    ensures Alike(P, s, StateOf(vars, seq(|vars|, i requires 0 <= i < |vars| => Lookup(s, vars[i]))), m', m)
  {
    hide NestVars;
    StateOfValues(vars, s);
  }

  lemma MeansAlike(P: NestProg, g: Tables, infos: map<string, Info>, k: nat, s: State, t: State, m: Model, m': Model)
    requires P.WellFormed() && Generated(P, g, infos) && Standard(m) && Standard(m') && k < P.Depth()
    requires Alike(P, s, t, m, m') && Alike(P, t, s, m', m) && Assumed(P, t, m')
    ensures Means(P, infos, k, s, m) <==> Means(P, infos, k, t, m')
  {
    hide NestProg.WellFormed, Generated, Standard, Alike, Assumed, Means, Prefix;
    MeaningAlike(P, s, t, m, m');
    MeaningAlike(P, t, s, m', m);
    MeansPrefix(P, g, infos, k, s, m);
    MeansPrefix(P, g, infos, k, t, m');
  }

  lemma NestModelReads(P: NestProg, g: Tables, infos: map<string, Info>, vars: seq<string>, k: nat, s: State, m: Model)
    requires P.WellFormed() && Generated(P, g, infos) && Standard(m) && k < P.Depth()
    requires forall x | x in NestVars(P) :: x in vars
    requires Assumed(P, s, NestModel(P, infos, vars, m))
    ensures Holds(InvCall(P.Key(k), vars), s, NestModel(P, infos, vars, m))
      <==> Means(P, infos, k, s, NestModel(P, infos, vars, m))
  {
    hide NestProg.WellFormed, Generated, Assumed, Means, NestVars, Holds, NestProg.Key, StateOf, VarsCall;
    var m' := NestModel(P, infos, vars, m);
    var values := seq(|vars|, i requires 0 <= i < |vars| => Lookup(s, vars[i]));
    var t := StateOf(vars, values);
    CallPassesValues(InvName(P.Key(k)), vars, s, m');
    StateOfIsAlike(P, vars, s, m, m');
    MeansAlike(P, g, infos, k, t, s, m, m');
    forall j | 0 <= j < P.Depth() && InvName(P.Key(k)) == InvName(P.Key(j)) ensures j == k {
      assert InvName(P.Key(k))[2..] == P.Key(k) && InvName(P.Key(j))[2..] == P.Key(j);
      if j != k { KeysDiffer(P, j, k); }
    }
    assert InvName(P.Key(k))[0] == 'I' && "postcondition"[0] == 'p';
  }

  lemma NestModelPost(P: NestProg, infos: map<string, Info>, vars: seq<string>, s: State, m: Model)
    requires P.WellFormed() && forall x | x in NestVars(P) :: x in vars
    ensures Holds(VarsCall("postcondition", vars), s, NestModel(P, infos, vars, m)) <==> AllDone(P, s, m)
    ensures AllDone(P, s, NestModel(P, infos, vars, m)) <==> AllDone(P, s, m)
    ensures Assumed(P, s, NestModel(P, infos, vars, m)) <==> Assumed(P, s, m)
  {
    hide NestProg.WellFormed, Assumed, AllDone, NestVars, Holds, StateOf, VarsCall, Prefix;
    var m' := NestModel(P, infos, vars, m);
    var t := StateOf(vars, seq(|vars|, i requires 0 <= i < |vars| => Lookup(s, vars[i])));
    CallPassesValues("postcondition", vars, s, m');
    StateOfIsAlike(P, vars, s, m, m);
    MeaningAlike(P, s, t, m, m);
    MeaningAlike(P, t, s, m, m);
    assert Alike(P, s, s, m, m') && Alike(P, s, s, m', m);
    MeaningAlike(P, s, s, m, m');
    MeaningAlike(P, s, s, m', m);
  }

  lemma NestModelReadsAll(P: NestProg, g: Tables, infos: map<string, Info>, vars: seq<string>, m: Model)
    requires P.WellFormed() && Generated(P, g, infos) && Standard(m)
    requires forall x | x in NestVars(P) :: x in vars
    ensures Reads(P, infos, NestCalls(P, vars), NestModel(P, infos, vars, m))
  {
    hide NestProg.WellFormed, Generated, Assumed, Means, NestVars, Holds, NestProg.Key, InvCall, KeyVars, Standard;
    var m' := NestModel(P, infos, vars, m);
    forall k | 0 <= k < P.Depth() ensures KeyVars(InvCall(P.Key(k), vars)) == {} { InvCallHasNoKeys(P.Key(k), vars); }
    forall k, s | 0 <= k < P.Depth() && Admissible(P, m')(s)
      ensures Holds(InvCall(P.Key(k), vars), s, m') <==> Means(P, infos, k, s, m')
    {
      NestModelReads(P, g, infos, vars, k, s, m);
    }
  }

  function NestCalls(P: NestProg, vars: seq<string>): map<string, Exp> {
    map key | key in set k | 0 <= k < P.Depth() :: P.Key(k) :: InvCall(key, vars)
  }

  // ----- the result -----

  /** Every perfect nest, run from any state that meets the assumptions, ends with every point
      of its box holding the value of the right-hand side there. Nothing about the run enters
      the proof but the generated conditions and termination. */
  lemma NestComputes(P: NestProg, s: State, m: Model) returns (n: nat)
    requires P.WellFormed() && Standard(m) && Assumed(P, s, m)
    ensures Run(P.Program(), s, n, m).Some? && AllDone(P, Run(P.Program(), s, n, m).value, m)
  {
    hide NestProg.Fixed, Assumed, AllDone, Holds, NestProg.From, Run, Wp, Generated, Reads, Standard, VarsCall,
      NestVars, KeySafe, PlainStmt;
    NestShape(P, 0);
    n := CountingTerminates(P.Program(), s, m);
    var g, infos := InfosExist(P);
    var vars := ToSeq(NestVars(P));
    var m' := NestModel(P, infos, vars, m);
    var q := VarsCall("postcondition", vars);
    NestModelReadsAll(P, g, infos, vars, m);
    forall t ensures Holds(q, t, m') <==> AllDone(P, t, m) { NestModelPost(P, infos, vars, t, m); }
    forall t ensures AllDone(P, t, m') <==> AllDone(P, t, m) { NestModelPost(P, infos, vars, t, m); }
    NestModelPost(P, infos, vars, s, m);
    StandardAlike(m, m');
    InvariantsDischargeConditions(P, g, infos, NestCalls(P, vars), q, m');
    PlainRunIgnoresCalls(P.Program(), s, n, m, m');
    SoundForNest(P, q, vars, m', s, n);
  }

  lemma StandardAlike(m: Model, m': Model)
    requires Standard(m) && m.bin == m'.bin
    ensures Standard(m')
  {
  }

  lemma SoundForNest(P: NestProg, q: Exp, vars: seq<string>, m: Model, s: State, n: nat)
    requires P.WellFormed() && q == VarsCall("postcondition", vars) && Assumed(P, s, m)
    requires Wp(P.Program(), q, NestCalls(P, vars), false).Some?
    requires AllValid(Wp(P.Program(), q, NestCalls(P, vars), false).value.conds, Admissible(P, m), m)
    requires Valid(Wp(P.Program(), q, NestCalls(P, vars), false).value.pre, Admissible(P, m), m)
    requires Run(P.Program(), s, n, m).Some?
    ensures Holds(q, Run(P.Program(), s, n, m).value, m)
  {
    hide NestProg.Fixed, Assumed, Holds, NestProg.From, Run, Wp, VarsCall, KeyVars, NestProg.Key, LoopKeys, Assigned,
      KeySafe, PlainStmt, InvCall;
    NestShape(P, 0);
    NestAssigned(P, 0);
    LoopKeysFrom(P, 0);
    AdmissibleClosed(P, m);
    VarsCallHasNoKeys("postcondition", vars);
    forall key | key in NestCalls(P, vars)
      ensures KeyVars(NestCalls(P, vars)[key]) == {}
    {
      InvCallHasNoKeys(key, vars);
    }
    assert Admissible(P, m)(s);
    WpSound(P.Program(), q, NestCalls(P, vars), false, {}, Admissible(P, m), m, s, n);
  }

  /** The assumptions can be met: `for i in 0..3: a[i] = b[i]`, in every state. */
  lemma AssumptionsCanBeMet(s: State, m: Model) returns (P: NestProg)
    ensures P.WellFormed() && Assumed(P, s, m)
  {
    hide Eval, NestProg.WellFormed, Idx;
    P := NestProg([Level("i", Num(0), Num(3))], "a", Var("i"), Arr(Var("b"), Var("i")));
    ExampleShape(P);
    NumMeans(0, s, m);
    NumMeans(3, s, m);
    assert P.Depth() == 1 && Lo(P, 0, s, m) == 0 && Hi(P, 0, s, m) == 3;
    forall p | InBox(P, p, s, m) ensures Idx(P, p, s, m) == IntV(p[0]) && p == [p[0]] { ExampleIndex(P, p, s, m); }
  }

  lemma NumMeans(v: int, s: State, m: Model)
    ensures Eval(Num(v), s, m) == IntV(v)
  {
  }

  lemma ExampleIndex(P: NestProg, p: seq<int>, s: State, m: Model)
    requires P.WellFormed() && P.Depth() == 1 && P.levels[0].v == "i" && P.idx == Var("i") && |p| == 1
    ensures Idx(P, p, s, m) == IntV(p[0])
  {
    hide Eval, NestProg.WellFormed;
    EvalVar("i", At(P, s, p), m);
    AtLookup(P, s, p, "i");
  }

  lemma ExampleShape(P: NestProg)
    requires P == NestProg([Level("i", Num(0), Num(3))], "a", Var("i"), Arr(Var("b"), Var("i")))
    ensures P.WellFormed()
  {
    assert "a"[0] == 'a' && "b"[0] == 'b' && "i"[0] == 'i';
    forall x ensures x in P.LoopVars() <==> x == "i" { assert P.levels[0].v == "i"; }
  }
}
