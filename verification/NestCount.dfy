/** Sizes: how many points the boxes of the generated invariants hold. */
module NestCount {
  import opened Interpret
  import opened VerifyTheorems
  import opened Nest
  import opened NestMeaning

  // ----- sizes of boxes -----

  function Put(a: int, rest: set<seq<int>>): set<seq<int>> { set p | p in rest :: [a] + p }

  function Slab(a: int, b: int, rest: set<seq<int>>): set<seq<int>>
    decreases b - a
  {
    if a >= b then {} else Put(a, rest) + Slab(a + 1, b, rest)
  }

  /** The points of the box from `lo` to below `hi`. */
  function Points(lo: seq<int>, hi: seq<int>): set<seq<int>>
    requires |lo| == |hi|
  {
    if lo == [] then {[]} else Slab(lo[0], hi[0], Points(lo[1..], hi[1..]))
  }

  function Volume(lo: seq<int>, hi: seq<int>): nat
    requires |lo| == |hi|
  {
    if lo == [] then 1 else (if hi[0] > lo[0] then hi[0] - lo[0] else 0) * Volume(lo[1..], hi[1..])
  }

  lemma {:induction false} PutSize(a: int, rest: set<seq<int>>)
    ensures |Put(a, rest)| == |rest|
  {
    if rest != {} {
      var p :| p in rest;
      PutSize(a, rest - {p});
      forall q | q in rest ensures ([a] + q)[1..] == q { }
      assert [a] + p !in Put(a, rest - {p});
      assert Put(a, rest) == Put(a, rest - {p}) + {[a] + p};
    }
  }

  lemma {:induction false} SlabMember(a: int, b: int, rest: set<seq<int>>, p: seq<int>)
    ensures p in Slab(a, b, rest) <==> p != [] && a <= p[0] < b && p[1..] in rest
    decreases b - a
  {
    if a < b {
      SlabMember(a + 1, b, rest, p);
      if p != [] && p[0] == a { assert p == [a] + p[1..]; }
      if p in Put(a, rest) {
        var q :| q in rest && p == [a] + q;
        assert p[1..] == q;
      }
    }
  }

  lemma SlabDisjoint(a: int, b: int, rest: set<seq<int>>)
    ensures Put(a, rest) !! Slab(a + 1, b, rest)
  {
    hide Slab;
    forall p | p in Put(a, rest) ensures p !in Slab(a + 1, b, rest) { SlabMember(a + 1, b, rest, p); }
  }

  lemma OneMoreTimes(k: int, n: int)
    ensures (k + 1) * n == n + k * n && 0 * n == 0
  {
  }

  lemma {:induction false} SlabSize(a: int, b: int, rest: set<seq<int>>)
    ensures |Slab(a, b, rest)| == (if b > a then b - a else 0) * |rest|
    decreases b - a
  {
    hide Put;
    var n := |rest|;
    OneMoreTimes(b - a - 1, n);
    if a < b {
      SlabSize(a + 1, b, rest);
      PutSize(a, rest);
      SlabDisjoint(a, b, rest);
    }
  }

  lemma {:induction false} PointsMember(lo: seq<int>, hi: seq<int>, p: seq<int>)
    requires |lo| == |hi|
    ensures p in Points(lo, hi) <==> |p| == |lo| && forall i | 0 <= i < |lo| :: lo[i] <= p[i] < hi[i]
  {
    if lo != [] {
      SlabMember(lo[0], hi[0], Points(lo[1..], hi[1..]), p);
      if p != [] {
        PointsMember(lo[1..], hi[1..], p[1..]);
        if |p| == |lo| { Shift(lo, hi, p); }
      }
    }
  }

  lemma Shift(lo: seq<int>, hi: seq<int>, p: seq<int>)
    requires |lo| == |hi| == |p| > 0
    ensures (forall i | 0 <= i < |lo| :: lo[i] <= p[i] < hi[i])
       <==> lo[0] <= p[0] < hi[0] && forall i | 0 <= i < |lo| - 1 :: lo[1..][i] <= p[1..][i] < hi[1..][i]
  {
    if forall i | 0 <= i < |lo| - 1 :: lo[1..][i] <= p[1..][i] < hi[1..][i] {
      forall i | 1 <= i < |lo|
        ensures lo[i] <= p[i] < hi[i]
      {
        assert lo[i] == lo[1..][i - 1] && p[i] == p[1..][i - 1];
      }
    }
  }

  lemma {:induction false} PointsSize(lo: seq<int>, hi: seq<int>)
    requires |lo| == |hi|
    ensures |Points(lo, hi)| == Volume(lo, hi)
  {
    if lo != [] {
      SlabSize(lo[0], hi[0], Points(lo[1..], hi[1..]));
      PointsSize(lo[1..], hi[1..]);
    }
  }

  // ----- the mixed-radix count -----

  /** Number of points in loops `j` and inwards. */
  function Width(P: NestProg, j: nat, s: State, m: Model): int
    requires j <= P.Depth()
    decreases P.Depth() - j
  {
    if j == P.Depth() then 1 else (Hi(P, j, s, m) - Lo(P, j, s, m)) * Width(P, j + 1, s, m)
  }

  /** The digits are the iterations done in each loop, the radices the widths further in. */
  function Count(P: NestProg, k: nat, s: State, m: Model): int
    requires k < P.Depth()
  {
    (if k == 0 then 0 else Count(P, k - 1, s, m)) + (Val(P, k, s) - Lo(P, k, s, m)) * Width(P, k + 1, s, m)
  }

  /** The box of the clause of loop `j`, as bounds. */
  function ClauseLo(P: NestProg, j: nat, s: State, m: Model): seq<int> {
    seq(P.Depth(), i requires 0 <= i < P.Depth() => if i < j then Val(P, i, s) else Lo(P, i, s, m))
  }

  function ClauseHi(P: NestProg, j: nat, s: State, m: Model): seq<int> {
    seq(P.Depth(), i requires 0 <= i < P.Depth() =>
      if i < j then Val(P, i, s) + 1 else if i == j then Val(P, i, s) else Hi(P, i, s, m))
  }

  function BoxOf(P: NestProg, j: nat, s: State, m: Model): set<seq<int>> {
    Points(ClauseLo(P, j, s, m), ClauseHi(P, j, s, m))
  }

  lemma BoxIsClause(P: NestProg, j: nat, p: seq<int>, s: State, m: Model)
    requires P.WellFormed() && Standard(m) && j < P.Depth()
    requires forall i | 0 <= i < j :: Lookup(s, P.levels[i].v).IntV?
    ensures p in BoxOf(P, j, s, m) <==> InRanges(P, NestClause(P, j), p, s, m)
  {
    hide NestProg.WellFormed, InRanges, NestClause, Standard, Eval, Lo, Hi, Val;
    PointsMember(ClauseLo(P, j, s, m), ClauseHi(P, j, s, m), p);
    ClauseBox(P, j, p, s, m);
  }

  lemma {:induction false} WidthVolume(P: NestProg, j: nat, i: nat, s: State, m: Model)
    requires j < i <= P.Depth() && forall l | 0 <= l < P.Depth() :: Lo(P, l, s, m) < Hi(P, l, s, m)
    ensures Volume(ClauseLo(P, j, s, m)[i..], ClauseHi(P, j, s, m)[i..]) == Width(P, i, s, m)
    decreases P.Depth() - i
  {
    hide Lo, Hi, Val;
    if i < P.Depth() {
      WidthVolume(P, j, i + 1, s, m);
      assert ClauseLo(P, j, s, m)[i..][1..] == ClauseLo(P, j, s, m)[i + 1..];
      assert ClauseHi(P, j, s, m)[i..][1..] == ClauseHi(P, j, s, m)[i + 1..];
    }
  }

  lemma {:induction false} DigitVolume(P: NestProg, j: nat, i: nat, s: State, m: Model)
    requires i <= j < P.Depth() && Lo(P, j, s, m) <= Val(P, j, s)
    requires forall l | 0 <= l < P.Depth() :: Lo(P, l, s, m) < Hi(P, l, s, m)
    ensures Volume(ClauseLo(P, j, s, m)[i..], ClauseHi(P, j, s, m)[i..])
      == (Val(P, j, s) - Lo(P, j, s, m)) * Width(P, j + 1, s, m)
    decreases j - i
  {
    hide Lo, Hi, Val, Width;
    assert ClauseLo(P, j, s, m)[i..][1..] == ClauseLo(P, j, s, m)[i + 1..];
    assert ClauseHi(P, j, s, m)[i..][1..] == ClauseHi(P, j, s, m)[i + 1..];
    if i < j { DigitVolume(P, j, i + 1, s, m); } else { WidthVolume(P, j, j + 1, s, m); }
  }

  /** The union of the boxes of loops 0..k. */
  function Covered(P: NestProg, k: nat, s: State, m: Model): set<seq<int>> {
    BoxOf(P, k, s, m) + if k == 0 then {} else Covered(P, k - 1, s, m)
  }

  lemma {:induction false} CoveredMember(P: NestProg, k: nat, p: seq<int>, s: State, m: Model)
    ensures p in Covered(P, k, s, m) <==> exists j | 0 <= j <= k :: p in BoxOf(P, j, s, m)
  {
    hide BoxOf;
    if k > 0 { CoveredMember(P, k - 1, p, s, m); }
  }

  /** The boxes are disjoint, so their sizes add up: to the mixed-radix count. */
  lemma {:induction false} CoveredSize(P: NestProg, k: nat, s: State, m: Model)
    requires P.WellFormed() && Standard(m) && k < P.Depth() && InBounds(P, k, s, m)
    requires forall l | 0 <= l < P.Depth() :: Lo(P, l, s, m) < Hi(P, l, s, m)
    ensures |Covered(P, k, s, m)| == Count(P, k, s, m)
  {
    hide NestProg.WellFormed, Standard, BoxOf, Lo, Hi, Val, Width, Count, Covered;
    BoxSize(P, k, s, m);
    CountUnfold(P, k, s, m);
    CoveredUnfold(P, k, s, m);
    if k > 0 {
      CoveredSize(P, k - 1, s, m);
      NewBox(P, k, s, m);
    }
  }

  lemma CoveredUnfold(P: NestProg, k: nat, s: State, m: Model)
    ensures Covered(P, k, s, m) == BoxOf(P, k, s, m) + if k == 0 then {} else Covered(P, k - 1, s, m)
  {
    hide BoxOf;
  }

  lemma NewBox(P: NestProg, k: nat, s: State, m: Model)
    requires P.WellFormed() && Standard(m) && 0 < k < P.Depth() && InBounds(P, k, s, m)
    ensures Covered(P, k - 1, s, m) !! BoxOf(P, k, s, m)
  {
    hide NestProg.WellFormed, Standard, BoxOf, Lo, Hi, Val, InRanges, NestClause, Covered;
    forall p | p in Covered(P, k - 1, s, m) ensures p !in BoxOf(P, k, s, m) {
      CoveredMember(P, k - 1, p, s, m);
      var j :| 0 <= j <= k - 1 && p in BoxOf(P, j, s, m);
      BoxIsClause(P, j, p, s, m);
      BoxIsClause(P, k, p, s, m);
      BoxesAreDisjoint(P, j, k, p, s, m);
    }
  }

  lemma BoxSize(P: NestProg, j: nat, s: State, m: Model)
    requires j < P.Depth() && Lo(P, j, s, m) <= Val(P, j, s)
    requires forall l | 0 <= l < P.Depth() :: Lo(P, l, s, m) < Hi(P, l, s, m)
    ensures |BoxOf(P, j, s, m)| == (Val(P, j, s) - Lo(P, j, s, m)) * Width(P, j + 1, s, m)
  {
    hide Lo, Hi, Val, Width;
    var lo, hi := ClauseLo(P, j, s, m), ClauseHi(P, j, s, m);
    PointsSize(lo, hi);
    DigitVolume(P, j, 0, s, m);
    assert lo[0..] == lo && hi[0..] == hi;
  }

  /** At the head of loop `k`, the points before the current iteration are exactly those in the
      boxes, and there are as many as the count says. */
  lemma PrefixIsCounted(P: NestProg, k: nat, s: State, m: Model)
    requires P.WellFormed() && Standard(m) && k < P.Depth() && InBounds(P, k, s, m) && Assumed(P, s, m)
    ensures forall p :: p in Covered(P, k, s, m) <==> InBox(P, p, s, m) && Before(P, k, p, s)
    ensures |Covered(P, k, s, m)| == Count(P, k, s, m)
  {
    hide NestProg.WellFormed, Standard, BoxOf, InRanges, NestClause, Covered, Count, Lo, Hi, Val, Agrees;
    CoveredSize(P, k, s, m);
    forall p ensures p in Covered(P, k, s, m) <==> InBox(P, p, s, m) && Before(P, k, p, s) {
      CoveredMember(P, k, p, s, m);
      forall j | 0 <= j <= k
        ensures p in BoxOf(P, j, s, m) <==>
          |p| == P.Depth() && Agrees(P, j, p, s) && Lo(P, j, s, m) <= p[j] < Val(P, j, s)
          && forall i | j < i < P.Depth() :: Lo(P, i, s, m) <= p[i] < Hi(P, i, s, m)
      {
        BoxIsClause(P, j, p, s, m);
        ClauseBox(P, j, p, s, m);
      }
      BeforeInBox(P, k, p, s, m);
    }
  }

  lemma BeforeInBox(P: NestProg, k: nat, p: seq<int>, s: State, m: Model)
    requires k < P.Depth() && InBounds(P, k, s, m)
    ensures InBox(P, p, s, m) && Before(P, k, p, s) <==>
      exists j | 0 <= j <= k ::
        |p| == P.Depth() && Agrees(P, j, p, s) && Lo(P, j, s, m) <= p[j] < Val(P, j, s)
        && forall i | j < i < P.Depth() :: Lo(P, i, s, m) <= p[i] < Hi(P, i, s, m)
  {
    hide Lo, Hi, Val;
  }

  // ----- the count follows the execution -----

  lemma {:induction false} WidthFrame(P: NestProg, j: nat, s: State, x: string, w: Value, m: Model)
    requires P.WellFormed() && x in P.Changing() && j <= P.Depth()
    ensures Width(P, j, s[x := w], m) == Width(P, j, s, m)
    decreases P.Depth() - j
  {
    hide NestProg.WellFormed, Eval;
    SpaceFrame(P, s, x, w, m);
    if j < P.Depth() { WidthFrame(P, j + 1, s, x, w, m); }
  }

  /** Assigning a loop variable further in does not change the count. */
  lemma {:induction false} CountFrame(P: NestProg, k: nat, s: State, x: string, w: Value, m: Model)
    requires P.WellFormed() && x in P.Changing() && k < P.Depth() && forall i | 0 <= i <= k :: P.levels[i].v != x
    ensures Count(P, k, s[x := w], m) == Count(P, k, s, m)
  {
    hide NestProg.WellFormed, Eval, Width;
    SpaceFrame(P, s, x, w, m);
    WidthFrame(P, k + 1, s, x, w, m);
    if k > 0 { CountFrame(P, k - 1, s, x, w, m); }
  }

  /** The count starts at 0; entering an inner loop keeps it; one more body makes it one more;
      and an inner loop that has ended is worth one iteration of the loop around it. */
  lemma CountFollowsExecution(P: NestProg, k: nat, s: State, v: int, m: Model)
    requires P.WellFormed() && k < P.Depth() && Lookup(s, P.levels[k].v) == IntV(v)
    ensures var first := s[P.levels[0].v := IntV(Lo(P, 0, s, m))];
      Count(P, 0, first, m) == 0
    ensures k + 1 < P.Depth() ==>
      Count(P, k + 1, s[P.levels[k + 1].v := IntV(Lo(P, k + 1, s, m))], m) == Count(P, k, s, m)
    ensures k + 1 == P.Depth() ==>
      Count(P, k, s[P.levels[k].v := IntV(v + 1)], m) == Count(P, k, s, m) + 1
    ensures k + 1 < P.Depth() && Val(P, k + 1, s) == Hi(P, k + 1, s, m) ==>
      Count(P, k, s[P.levels[k].v := IntV(v + 1)], m) == Count(P, k + 1, s, m)
  {
    hide Eval, Count, NestProg.WellFormed, Lo, Hi, Val, Width;
    CountFirst(P, 0, s, m);
    CountStep(P, k, s, v, m);
    CountUnfold(P, k, s, m);
    if k + 1 < P.Depth() {
      CountFirst(P, k + 1, s, m);
      CountUnfold(P, k + 1, s, m);
    }
  }

  /** At the first iteration of a loop the count is that of the loop around it. */
  lemma CountFirst(P: NestProg, k: nat, s: State, m: Model)
    requires P.WellFormed() && k < P.Depth()
    ensures Count(P, k, s[P.levels[k].v := IntV(Lo(P, k, s, m))], m) == if k == 0 then 0 else Count(P, k - 1, s, m)
  {
    hide Eval, Count, Width, NestProg.WellFormed, Lo, Hi, Val;
    var x, lo := P.levels[k].v, Lo(P, k, s, m);
    var t := s[x := IntV(lo)];
    BoundsFrame(P, k, s, x, IntV(lo), m);
    ValIs(P, k, t, lo);
    CountUnfold(P, k, t, m);
    if k > 0 { CountFrameOutside(P, k, s, IntV(lo), m); }
  }

  lemma CountUnfold(P: NestProg, k: nat, s: State, m: Model)
    requires k < P.Depth()
    ensures Count(P, k, s, m)
      == (if k == 0 then 0 else Count(P, k - 1, s, m)) + (Val(P, k, s) - Lo(P, k, s, m)) * Width(P, k + 1, s, m)
    ensures Val(P, k, s) == Lo(P, k, s, m) ==> (Val(P, k, s) - Lo(P, k, s, m)) * Width(P, k + 1, s, m) == 0
    ensures k + 1 < P.Depth()
      ==> Width(P, k + 1, s, m) == (Hi(P, k + 1, s, m) - Lo(P, k + 1, s, m)) * Width(P, k + 2, s, m)
    ensures k + 1 == P.Depth() ==> Width(P, k + 1, s, m) == 1
  {
    hide Lo, Hi, Val;
  }

  /** One more iteration of loop `k` adds the width of the loops inside it. */
  lemma CountStep(P: NestProg, k: nat, s: State, v: int, m: Model)
    requires P.WellFormed() && k < P.Depth() && Lookup(s, P.levels[k].v) == IntV(v)
    ensures Count(P, k, s[P.levels[k].v := IntV(v + 1)], m) == Count(P, k, s, m) + Width(P, k + 1, s, m)
  {
    hide Eval, Width, NestProg.WellFormed, Count, Lo, Hi, Val;
    var x := P.levels[k].v;
    var t := s[x := IntV(v + 1)];
    BoundsFrame(P, k, s, x, IntV(v + 1), m);
    ValIs(P, k, s, v);
    ValIs(P, k, t, v + 1);
    WidthFrame(P, k + 1, s, x, IntV(v + 1), m);
    CountUnfold(P, k, s, m);
    CountUnfold(P, k, t, m);
    if k > 0 { CountFrameOutside(P, k, s, IntV(v + 1), m); }
    OneMoreTimes(v - Lo(P, k, s, m), Width(P, k + 1, s, m));
    assert v - Lo(P, k, s, m) + 1 == v + 1 - Lo(P, k, s, m);
  }

  lemma ValIs(P: NestProg, k: nat, s: State, v: int)
    requires k < P.Depth() && Lookup(s, P.levels[k].v) == IntV(v)
    ensures Val(P, k, s) == v
  {
  }

  lemma BoundsFrame(P: NestProg, k: nat, s: State, x: string, w: Value, m: Model)
    requires P.WellFormed() && k < P.Depth() && x in P.Changing()
    ensures Lo(P, k, s[x := w], m) == Lo(P, k, s, m) && Hi(P, k, s[x := w], m) == Hi(P, k, s, m)
  {
    hide Eval, NestProg.WellFormed;
    SpaceFrame(P, s, x, w, m);
  }

  lemma CountFrameOutside(P: NestProg, k: nat, s: State, w: Value, m: Model)
    requires P.WellFormed() && 0 < k < P.Depth()
    ensures Count(P, k - 1, s[P.levels[k].v := w], m) == Count(P, k - 1, s, m)
  {
    hide Count;
    CountFrame(P, k - 1, s, P.levels[k].v, w, m);
  }
}
