/** Body executions counted along a run, against the boxes of the generated invariants. */
module NestTrace {
  import opened StencilIr
  import opened Interpret
  import opened VerifyTheorems
  import opened Termination
  import opened Nest
  import opened NestMeaning
  import opened NestCount
  import opened NestVcs

  /** A loop test about to be evaluated, and how many array writes have been executed before. */
  datatype Head = Head(key: string, s: State, writes: nat)

  /** Array writes executed by a run. */
  function Writes(c: Stmt, s: State, n: nat, m: Model): nat
    requires Run(c, s, n, m).Some?
    decreases n, c
  {
    match c
    case AssignArr(_, _, _) => 1
    case Seq(c1, c2) => Writes(c1, s, n, m) + Writes(c2, Run(c1, s, n, m).value, n, m)
    case While(_, test, body) =>
      if !Holds(test, s, m) then 0
      else Writes(body, s, n - 1, m) + Writes(c, Run(body, s, n - 1, m).value, n - 1, m)
    case _ => 0
  }

  /** All loop heads of a run that starts after `before` writes. */
  function Heads(c: Stmt, s: State, n: nat, m: Model, before: nat): seq<Head>
    requires Run(c, s, n, m).Some?
    decreases n, c
  {
    match c
    case Seq(c1, c2) =>
      Heads(c1, s, n, m, before) + Heads(c2, Run(c1, s, n, m).value, n, m, before + Writes(c1, s, n, m))
    case While(_, test, body) =>
      [Head(LoopKey(c), s, before)]
      + if !Holds(test, s, m) then []
        else
          Heads(body, s, n - 1, m, before)
          + Heads(c, Run(body, s, n - 1, m).value, n - 1, m, before + Writes(body, s, n - 1, m))
    case _ => []
  }

  /** The head of some loop of the nest, with its bounds, after as many writes as its count says. */
  ghost predicate Counted(P: NestProg, h: Head, m: Model)
    requires P.WellFormed()
  {
    exists k | 0 <= k < P.Depth() && h.key == P.Key(k) :: CountedAt(P, h, k, m)
  }

  ghost predicate CountedAt(P: NestProg, h: Head, k: nat, m: Model)
    requires P.WellFormed() && k < P.Depth()
  {
    Assumed(P, h.s, m) && InBounds(P, k, h.s, m) && h.writes == Count(P, k, h.s, m)
  }

  ghost predicate AllCounted(P: NestProg, hs: seq<Head>, m: Model)
    requires P.WellFormed()
  {
    forall h | h in hs :: Counted(P, h, m)
  }

  // ----- what a part of the nest leaves alone -----

  /** The same bounds, and the same values of the first `k` loop variables. */
  ghost predicate SameOutside(P: NestProg, k: nat, s: State, t: State, m: Model) {
    && (forall i | 0 <= i < P.Depth() :: Lo(P, i, t, m) == Lo(P, i, s, m) && Hi(P, i, t, m) == Hi(P, i, s, m))
    && (forall i | 0 <= i < k && i < P.Depth() :: Lookup(t, P.levels[i].v) == Lookup(s, P.levels[i].v))
  }

  lemma RunSameOutside(P: NestProg, k: nat, s: State, n: nat, m: Model)
    requires P.WellFormed() && k <= P.Depth() && Run(P.From(k), s, n, m).Some?
    ensures SameOutside(P, k, s, Run(P.From(k), s, n, m).value, m)
  {
    hide NestProg.From, Run, Eval, Vars, Plain, NoArrays;
    NestAssigned(P, k);
    var t := Run(P.From(k), s, n, m).value;
    forall i | 0 <= i < P.Depth()
      ensures Lo(P, i, t, m) == Lo(P, i, s, m) && Hi(P, i, t, m) == Hi(P, i, s, m)
      ensures i < k ==> Lookup(t, P.levels[i].v) == Lookup(s, P.levels[i].v)
    {
      RunFrameExp(P.From(k), s, n, m, P.levels[i].lo);
      RunFrameExp(P.From(k), s, n, m, P.levels[i].hi);
      if i < k { RunFrame(P.From(k), s, n, m, P.levels[i].v); }
    }
  }

  lemma {:induction false} WidthSame(P: NestProg, j: nat, k: nat, s: State, t: State, m: Model)
    requires j <= P.Depth() && SameOutside(P, k, s, t, m)
    ensures Width(P, j, t, m) == Width(P, j, s, m)
    decreases P.Depth() - j
  {
    hide Lo, Hi;
    if j < P.Depth() { WidthSame(P, j + 1, k, s, t, m); }
  }

  lemma {:induction false} CountSame(P: NestProg, k: nat, s: State, t: State, m: Model)
    requires k < P.Depth() && SameOutside(P, k + 1, s, t, m)
    ensures Count(P, k, t, m) == Count(P, k, s, m)
    ensures InBounds(P, k, t, m) <==> InBounds(P, k, s, m)
  {
    hide Lo, Hi, Width;
    WidthSame(P, k + 1, k + 1, s, t, m);
    if k > 0 { CountSame(P, k - 1, s, t, m); }
  }

  /** Runs of a part of the nest stay within the assumptions. */
  lemma StaysAssumed(P: NestProg, k: nat, s: State, n: nat, m: Model)
    requires P.WellFormed() && k <= P.Depth() && Run(P.From(k), s, n, m).Some? && Assumed(P, s, m)
    ensures Assumed(P, Run(P.From(k), s, n, m).value, m)
  {
    hide NestProg.WellFormed, NestProg.From, Run, Assumed;
    NestAssigned(P, k);
    AdmissibleClosed(P, m);
    RunStaysAdmissible(P.From(k), Admissible(P, m), m, s, n);
  }

  // ----- counting -----

  /** Where a part of the nest starts: in an iteration of the loop around it. */
  ghost predicate StartsAt(P: NestProg, k: nat, s: State, before: nat, m: Model)
    requires P.WellFormed() && k <= P.Depth()
  {
    && Assumed(P, s, m)
    && if k == 0 then before == 0
       else InBounds(P, k - 1, s, m) && Val(P, k - 1, s) < Hi(P, k - 1, s, m) && before == Count(P, k - 1, s, m)
  }

  lemma {:induction false} FromCounts(P: NestProg, k: nat, s: State, n: nat, before: nat, m: Model)
    requires P.WellFormed() && Standard(m) && k <= P.Depth() && Run(P.From(k), s, n, m).Some?
    requires StartsAt(P, k, s, before, m)
    ensures Writes(P.From(k), s, n, m) == Width(P, k, s, m)
    ensures AllCounted(P, Heads(P.From(k), s, n, m, before), m)
    decreases n, P.Depth() - k, 1
  {
    hide NestProg.WellFormed, NestProg.Loop, Standard, Assumed, Width, Count, LoopKey, InBounds, Counted, Lo, Hi;
    if k == P.Depth() {
      WidthOfNone(P, s, m);
    } else {
      var t := s[P.levels[k].v := IntV(Lo(P, k, s, m))];
      LoopStarts(P, k, s, n, before, m);
      FromSplit(P, k, s, n, before, m);
      LoopCounts(P, k, t, n, before, m);
      WidthUnfold(P, k, t, m);
    }
  }

  lemma WidthOfNone(P: NestProg, s: State, m: Model)
    ensures Width(P, P.Depth(), s, m) == 1
  {
  }

  lemma WidthUnfold(P: NestProg, k: nat, s: State, m: Model)
    requires k < P.Depth()
    ensures Width(P, k, s, m) == (Hi(P, k, s, m) - Lo(P, k, s, m)) * Width(P, k + 1, s, m)
  {
    hide Lo, Hi;
  }

  /** Initialising the variable of loop `k`. */
  lemma LoopStarts(P: NestProg, k: nat, s: State, n: nat, before: nat, m: Model)
    requires P.WellFormed() && Standard(m) && k < P.Depth() && StartsAt(P, k, s, before, m)
    ensures var t := s[P.levels[k].v := IntV(Lo(P, k, s, m))];
      && Run(P.Start(k), s, n, m) == Some(t) && Assumed(P, t, m) && InBounds(P, k, t, m) && before == Count(P, k, t, m)
      && Val(P, k, t) == Lo(P, k, t, m) && Width(P, k, t, m) == Width(P, k, s, m)
  {
    hide NestProg.WellFormed, Run, Assumed, InBounds, Count, Width, Lo, Hi, Val, Standard;
    var x, lo := P.levels[k].v, Lo(P, k, s, m);
    var t := s[x := IntV(lo)];
    StartRuns(P, k, s, n, m);
    AssumedFrame(P, s, x, IntV(lo), m);
    BoundsAfter(P, k, s, m);
    WidthFrame(P, k, s, x, IntV(lo), m);
    CountUnfold(P, k, t, m);
    if k > 0 { CountFrameOutside(P, k, s, IntV(lo), m); }
  }

  lemma StartRuns(P: NestProg, k: nat, s: State, n: nat, m: Model)
    requires P.WellFormed() && k < P.Depth() && Assumed(P, s, m)
    ensures Run(P.Start(k), s, n, m) == Some(s[P.levels[k].v := IntV(Lo(P, k, s, m))])
  {
    hide NestProg.WellFormed, Eval, Idx, InBox;
  }

  lemma BoundsAfter(P: NestProg, k: nat, s: State, m: Model)
    requires P.WellFormed() && k < P.Depth() && Assumed(P, s, m)
    requires k > 0 ==> InBounds(P, k - 1, s, m) && Val(P, k - 1, s) < Hi(P, k - 1, s, m)
    ensures var t := s[P.levels[k].v := IntV(Lo(P, k, s, m))]; InBounds(P, k, t, m) && Val(P, k, t) == Lo(P, k, t, m)
  {
    hide NestProg.WellFormed, Eval, Idx, InBox;
    SetVar(P, s, k, Lo(P, k, s, m), m);
  }

  lemma FromSplit(P: NestProg, k: nat, s: State, n: nat, before: nat, m: Model)
    requires P.WellFormed() && k < P.Depth() && Run(P.From(k), s, n, m).Some? && Run(P.Start(k), s, n, m).Some?
    ensures var t := Run(P.Start(k), s, n, m).value;
      && Run(P.Loop(k), t, n, m).Some?
      && Writes(P.From(k), s, n, m) == Writes(P.Loop(k), t, n, m)
      && Heads(P.From(k), s, n, m, before) == Heads(P.Loop(k), t, n, m, before)
  {
    hide NestProg.Loop, Eval, LoopKey;
    assert P.From(k) == Seq(P.Start(k), P.Loop(k));
  }

  lemma {:induction false} LoopCounts(P: NestProg, k: nat, s: State, n: nat, before: nat, m: Model)
    requires P.WellFormed() && Standard(m) && k < P.Depth() && Run(P.Loop(k), s, n, m).Some?
    requires Assumed(P, s, m) && InBounds(P, k, s, m) && before == Count(P, k, s, m)
    ensures Writes(P.Loop(k), s, n, m) == (Hi(P, k, s, m) - Val(P, k, s)) * Width(P, k + 1, s, m)
    ensures AllCounted(P, Heads(P.Loop(k), s, n, m, before), m)
    decreases n, P.Depth() - k, 0
  {
    hide NestProg.WellFormed, NestProg.From, NestProg.Loop, Standard, Assumed, Width, Count, LoopKey, InBounds, Lo, Hi,
      Val, Counted, Writes, Heads, Run;
    IntsInBounds(P, k, s, m);
    TestMeans(P, k, s, m);
    NestLoop(P, k);
    var here := Head(P.Key(k), s, before);
    assert CountedAt(P, here, k, m);
    CountedByKey(P, here, k, m);
    OneMoreTimes(Hi(P, k, s, m) - Val(P, k, s) - 1, Width(P, k + 1, s, m));
    if Val(P, k, s) < Hi(P, k, s, m) {
      var u := LoopRuns(P.Loop(k), P.From(k + 1), s, n, m);
      LoopContinues(P.Loop(k), P.From(k + 1), s, u, n, before, m);
      FromCounts(P, k + 1, s, n - 1, before, m);
      NextIteration(P, k, s, n - 1, m);
      LoopCounts(P, k, Next(P.levels[k].v, s, u), n - 1, before + Writes(P.From(k + 1), s, n - 1, m), m);
    } else {
      LoopLeft(P.Loop(k), s, n, before, m);
    }
  }

  lemma NestLoop(P: NestProg, k: nat)
    requires P.WellFormed() && k < P.Depth()
    ensures P.Loop(k) == While(P.levels[k].v, Test(P, k), Seq(P.From(k + 1), Incr(P.levels[k].v)))
    ensures P.levels[k].v !in Assigned(P.From(k + 1)) && LoopKey(P.Loop(k)) == P.Key(k)
  {
    hide LoopKey, NestProg.From, NestProg.Fixed;
    NestAssigned(P, k + 1);
    LoopShape(P, k);
  }

  lemma IntsInBounds(P: NestProg, k: nat, s: State, m: Model)
    requires k < P.Depth() && InBounds(P, k, s, m)
    ensures Lookup(s, P.levels[k].v) == IntV(Val(P, k, s)) && Val(P, k, s) <= Hi(P, k, s, m)
  {
    hide Lo, Hi;
  }

  lemma CountedByKey(P: NestProg, h: Head, k: nat, m: Model)
    requires P.WellFormed() && k < P.Depth() && h.key == P.Key(k) && CountedAt(P, h, k, m)
    ensures Counted(P, h, m)
  {
    hide CountedAt, NestProg.Key;
  }

  lemma LoopLeft(c: Stmt, s: State, n: nat, before: nat, m: Model)
    requires c.While? && Run(c, s, n, m).Some? && !Holds(c.test, s, m)
    ensures Writes(c, s, n, m) == 0 && Heads(c, s, n, m, before) == [Head(LoopKey(c), s, before)]
  {
    hide Eval, LoopKey;
  }

  /** The state in which the next iteration of a counting loop begins. */
  function Next(v: string, s: State, u: State): State {
    u[v := IntV(IntOf(Lookup(s, v)) + 1)]
  }

  /** One iteration of a counting loop: what is inside, the increment, and the loop again. */
  lemma LoopRuns(c: Stmt, inner: Stmt, s: State, n: nat, m: Model) returns (u: State)
    requires c.While? && c.body == Seq(inner, Incr(c.iterVar)) && c.iterVar !in Assigned(inner)
    requires Holds(c.test, s, m) && Lookup(s, c.iterVar).IntV? && Run(c, s, n, m).Some? && Standard(m)
    ensures n > 0 && Run(inner, s, n - 1, m) == Some(u) && Run(c.body, s, n - 1, m) == Some(Next(c.iterVar, s, u))
    ensures Run(c, Next(c.iterVar, s, u), n - 1, m).Some?
  {
    hide Eval, LoopKey, Standard;
    BodyUnfold(c.body, c.iterVar, inner, s, n - 1, 0, m);
    u := Run(inner, s, n - 1, m).value;
  }

  lemma LoopContinues(c: Stmt, inner: Stmt, s: State, u: State, n: nat, before: nat, m: Model)
    requires c.While? && c.body == Seq(inner, Incr(c.iterVar)) && c.iterVar !in Assigned(inner)
    requires n > 0 && Run(inner, s, n - 1, m) == Some(u) && Run(c, Next(c.iterVar, s, u), n - 1, m).Some?
    requires Run(c, s, n, m).Some? && Run(c.body, s, n - 1, m) == Some(Next(c.iterVar, s, u))
    requires Holds(c.test, s, m) && Lookup(s, c.iterVar).IntV? && Standard(m)
    ensures Writes(c, s, n, m) == Writes(inner, s, n - 1, m) + Writes(c, Next(c.iterVar, s, u), n - 1, m)
    ensures Heads(c, s, n, m, before)
      == [Head(LoopKey(c), s, before)]
         + (Heads(inner, s, n - 1, m, before)
           + Heads(c, Next(c.iterVar, s, u), n - 1, m, before + Writes(inner, s, n - 1, m)))
  {
    hide Eval, LoopKey, Standard;
    BodyUnfold(c.body, c.iterVar, inner, s, n - 1, before, m);
  }

  lemma BodyUnfold(body: Stmt, v: string, inner: Stmt, s: State, n: nat, before: nat, m: Model)
    requires Standard(m) && body == Seq(inner, Incr(v)) && v !in Assigned(inner)
    requires Run(body, s, n, m).Some? && Lookup(s, v).IntV?
    ensures Run(inner, s, n, m).Some? && Run(body, s, n, m).value == Next(v, s, Run(inner, s, n, m).value)
    ensures Writes(body, s, n, m) == Writes(inner, s, n, m)
    ensures Heads(body, s, n, m, before) == Heads(inner, s, n, m, before)
  {
    hide Eval, LoopKey, Standard;
    RunFrame(inner, s, n, m, v);
    IncrRun(v, Run(inner, s, n, m).value, n, m);
  }

  /** The next iteration starts in bounds, as many writes later as the loops inside are wide. */
  lemma NextIteration(P: NestProg, k: nat, s: State, n: nat, m: Model)
    requires P.WellFormed() && Standard(m) && k < P.Depth() && Run(P.From(k + 1), s, n, m).Some?
    requires Assumed(P, s, m) && InBounds(P, k, s, m) && Val(P, k, s) < Hi(P, k, s, m)
    ensures var t := Run(P.From(k + 1), s, n, m).value[P.levels[k].v := IntV(Val(P, k, s) + 1)];
      && Assumed(P, t, m) && InBounds(P, k, t, m) && Val(P, k, t) == Val(P, k, s) + 1
      && Hi(P, k, t, m) == Hi(P, k, s, m)
      && Count(P, k, t, m) == Count(P, k, s, m) + Width(P, k + 1, s, m)
      && Width(P, k + 1, t, m) == Width(P, k + 1, s, m)
  {
    hide NestProg.From, NestProg.WellFormed, Run, Eval, Standard, Assumed, Count, Width, Lo, Hi;
    var u := Run(P.From(k + 1), s, n, m).value;
    var x, v := P.levels[k].v, Val(P, k, s);
    RunSameOutside(P, k + 1, s, n, m);
    StaysAssumed(P, k + 1, s, n, m);
    CountSame(P, k, s, u, m);
    WidthSame(P, k + 1, k + 1, s, u, m);
    AssumedFrame(P, u, x, IntV(v + 1), m);
    CountStep(P, k, u, v, m);
    WidthFrame(P, k + 1, u, x, IntV(v + 1), m);
    InBoundsNext(P, k, u, v, m);
  }

  lemma InBoundsNext(P: NestProg, k: nat, u: State, v: int, m: Model)
    requires P.WellFormed() && k < P.Depth() && Assumed(P, u, m) && InBounds(P, k, u, m)
    requires Lookup(u, P.levels[k].v) == IntV(v)
    requires v < Hi(P, k, u, m)
    ensures var t := u[P.levels[k].v := IntV(v + 1)];
      InBounds(P, k, t, m) && Val(P, k, t) == v + 1 && Hi(P, k, t, m) == Hi(P, k, u, m)
  {
    hide NestProg.WellFormed, Eval, Idx, InBox;
    SetVar(P, u, k, v + 1, m);
  }

  /** At every loop head of every run of a perfect nest, the count of the current iteration is the
      number of array writes executed so far, and the boxes of the invariants reached there hold
      exactly that many points. */
  lemma BoxesCountTheRun(P: NestProg, s: State, n: nat, m: Model, h: Head)
    requires P.WellFormed() && Standard(m) && Assumed(P, s, m) && Run(P.Program(), s, n, m).Some?
    requires h in Heads(P.Program(), s, n, m, 0)
    ensures exists k | 0 <= k < P.Depth() && h.key == P.Key(k) ::
      InBounds(P, k, h.s, m) && h.writes == Count(P, k, h.s, m) == |Covered(P, k, h.s, m)|
    ensures Writes(P.Program(), s, n, m) == Width(P, 0, s, m)
  {
    hide NestProg.WellFormed, NestProg.From, NestProg.Key, Standard, Run, Writes, Heads, Assumed, Count, Covered,
      InBounds, InBox, Before;
    FromCounts(P, 0, s, n, 0, m);
    var k :| 0 <= k < P.Depth() && h.key == P.Key(k) && CountedAt(P, h, k, m);
    PrefixIsCounted(P, k, h.s, m);
  }
}
