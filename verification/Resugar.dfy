/** The first search of `IndexResugar.resugar` (backend/backend_halide.py:109-136): which loop
    variables plus small offsets give a flat location. */
module Resugar {
  import opened StencilIr

  /** Integer coefficients of the monomials in the size parameters (1, N, N*N, ...). */
  type Vec = seq<int>

  /** A linear flat index: one stride for each loop variable, and an offset. Two simplified sums
      are the same expression exactly when all coefficients agree. */
  datatype Flat = Flat(strides: seq<Vec>, offset: Vec)

  function Plus(a: Vec, b: Vec, k: int): (r: Vec)
    ensures |r| == |a|
  {
    seq(|a|, i requires 0 <= i < |a| => if i < |b| then a[i] + k * b[i] else a[i])
  }

  predicate WellFormed(f: Flat, m: nat) { |f.offset| == m && forall i | 0 <= i < |f.strides| :: |f.strides[i]| == m }

  /** `e.subs(lv, lv + p)` for loop variable number `i`. */
  function Subs(f: Flat, i: nat, p: int): Flat
    requires i < |f.strides|
  {
    Flat(f.strides, Plus(f.offset, f.strides[i], p))
  }

  /** All loop variables shifted by the point `pt`, the first one first. */
  function Shifted(f: Flat, pt: seq<int>): (r: Flat)
    requires |pt| <= |f.strides|
    ensures r.strides == f.strides
  {
    if pt == [] then f else Subs(Shifted(f, pt[..|pt| - 1]), |pt| - 1, pt[|pt| - 1])
  }

  // ----- what an index denotes -----

  /** Value of a coefficient vector when the monomials have the values `w`. */
  function Dot(a: Vec, w: seq<int>): int {
    if a == [] || w == [] then 0 else Dot(a[..|a| - 1], w) + if |a| <= |w| then a[|a| - 1] * w[|a| - 1] else 0
  }

  function Sum(strides: seq<Vec>, lv: seq<int>, w: seq<int>): int
    requires |strides| == |lv|
  {
    if lv == [] then 0 else Sum(strides[..|lv| - 1], lv[..|lv| - 1], w) + lv[|lv| - 1] * Dot(strides[|lv| - 1], w)
  }

  function ValueAt(f: Flat, lv: seq<int>, w: seq<int>): int
    requires |lv| == |f.strides|
  {
    Dot(f.offset, w) + Sum(f.strides, lv, w)
  }

  function Moved(lv: seq<int>, pt: seq<int>): seq<int>
    requires |lv| == |pt|
  {
    seq(|lv|, i requires 0 <= i < |lv| => lv[i] + pt[i])
  }

  lemma {:induction false} DotPlus(a: Vec, b: Vec, k: int, w: seq<int>)
    requires |a| == |b|
    ensures Dot(Plus(a, b, k), w) == Dot(a, w) + k * Dot(b, w)
  {
    if a != [] && w != [] {
      var n := |a| - 1;
      DotPlus(a[..n], b[..n], k, w);
      assert Plus(a, b, k)[..n] == Plus(a[..n], b[..n], k);
      if |a| <= |w| {
        assert (a[n] + k * b[n]) * w[n] == a[n] * w[n] + k * (b[n] * w[n]);
        assert k * (Dot(b[..n], w) + b[n] * w[n]) == k * Dot(b[..n], w) + k * (b[n] * w[n]);
      }
    }
  }

  lemma {:induction false} SumMoved(strides: seq<Vec>, lv: seq<int>, pt: seq<int>, w: seq<int>)
    requires |strides| == |lv| == |pt|
    ensures Sum(strides, Moved(lv, pt), w) == Sum(strides, lv, w) + Sum(strides, pt, w)
  {
    if lv != [] {
      var n := |lv| - 1;
      SumMoved(strides[..n], lv[..n], pt[..n], w);
      assert Moved(lv, pt)[..n] == Moved(lv[..n], pt[..n]);
      assert (lv[n] + pt[n]) * Dot(strides[n], w) == lv[n] * Dot(strides[n], w) + pt[n] * Dot(strides[n], w);
    }
  }

  lemma {:induction false} OffsetShifted(f: Flat, pt: seq<int>, w: seq<int>, m: nat)
    requires WellFormed(f, m) && |pt| <= |f.strides|
    ensures WellFormed(Shifted(f, pt), m)
    ensures Dot(Shifted(f, pt).offset, w) == Dot(f.offset, w) + Sum(f.strides[..|pt|], pt, w)
  {
    if pt != [] {
      var n := |pt| - 1;
      OffsetShifted(f, pt[..n], w, m);
      DotPlus(Shifted(f, pt[..n]).offset, f.strides[n], pt[n], w);
      assert f.strides[..|pt|][..n] == f.strides[..n];
    }
  }

  /** Shifting the expression moves the point at which it is evaluated. */
  lemma ShiftMeansMove(f: Flat, pt: seq<int>, lv: seq<int>, w: seq<int>, m: nat)
    requires WellFormed(f, m) && |pt| == |lv| == |f.strides|
    ensures ValueAt(Shifted(f, pt), lv, w) == ValueAt(f, Moved(lv, pt), w)
  {
    OffsetShifted(f, pt, w, m);
    SumMoved(f.strides, lv, pt, w);
    assert f.strides[..|pt|] == f.strides;
  }

  // ----- the candidates -----

  /** `itertools.product(range(-2, 2), repeat = n)`. */
  function Candidates(n: nat): (r: seq<seq<int>>)
    ensures forall k | 0 <= k < |r| :: InReach(r[k], n)
  {
    if n == 0 then [[]]
    else
      var rest := Candidates(n - 1);
      Prefixed(-2, rest) + Prefixed(-1, rest) + Prefixed(0, rest) + Prefixed(1, rest)
  }

  function Prefixed(x: int, ps: seq<seq<int>>): (r: seq<seq<int>>)
    ensures |r| == |ps| && forall k | 0 <= k < |ps| :: r[k] == [x] + ps[k]
  {
    seq(|ps|, k requires 0 <= k < |ps| => [x] + ps[k])
  }

  predicate InReach(pt: seq<int>, n: nat) { |pt| == n && forall i | 0 <= i < n :: -2 <= pt[i] <= 1 }

  lemma {:induction false} AllInReach(pt: seq<int>, n: nat)
    requires InReach(pt, n)
    ensures pt in Candidates(n)
  {
    hide Candidates;
    if n == 0 {
      NoVariables(pt);
    } else {
      AllInReach(pt[1..], n - 1);
      PrefixedIn(pt, n);
    }
  }

  lemma NoVariables(pt: seq<int>)
    requires pt == []
    ensures pt in Candidates(0)
  {
  }

  lemma PrefixedIn(pt: seq<int>, n: nat)
    requires n > 0 && InReach(pt, n) && pt[1..] in Candidates(n - 1)
    ensures pt in Candidates(n)
  {
    hide Prefixed;
    var some := Candidates(n - 1);
    PrefixedBy(pt, some);
    Joined(pt, Prefixed(-2, some), Prefixed(-1, some), Prefixed(0, some), Prefixed(1, some));
  }

  lemma PrefixedBy(pt: seq<int>, ps: seq<seq<int>>)
    requires pt != [] && pt[1..] in ps
    ensures pt in Prefixed(pt[0], ps)
  {
    var k :| 0 <= k < |ps| && ps[k] == pt[1..];
    assert Prefixed(pt[0], ps)[k] == pt;
  }

  lemma Joined<T>(x: T, a: seq<T>, b: seq<T>, c: seq<T>, d: seq<T>)
    requires x in a || x in b || x in c || x in d
    ensures x in a + b + c + d
  {
    assert x in a ==> x in a + b;
  }

  // ----- their order -----

  /** Lexicographic order of vectors of the same length. */
  predicate Smaller(p: seq<int>, q: seq<int>) {
    |p| == |q| && exists i | 0 <= i < |p| :: p[..i] == q[..i] && p[i] < q[i]
  }

  lemma SmallerCons(p: seq<int>, q: seq<int>)
    requires |p| == |q| > 0
    ensures Smaller(p, q) <==> p[0] < q[0] || (p[0] == q[0] && Smaller(p[1..], q[1..]))
  {
    if i :| 0 <= i < |p| && p[..i] == q[..i] && p[i] < q[i] {
      if i > 0 {
        assert p[..i][0] == q[..i][0];
        assert p[1..][..i - 1] == p[..i][1..] && q[1..][..i - 1] == q[..i][1..];
        assert p[1..][i - 1] < q[1..][i - 1];
      }
    }
    if p[0] < q[0] {
      assert p[..0] == q[..0];
    } else if p[0] == q[0] && Smaller(p[1..], q[1..]) {
      var i :| 0 <= i < |p| - 1 && p[1..][..i] == q[1..][..i] && p[1..][i] < q[1..][i];
      assert p[..i + 1] == [p[0]] + p[1..][..i] && q[..i + 1] == [q[0]] + q[1..][..i];
      assert p[i + 1] < q[i + 1];
    }
  }

  lemma {:induction false} NotBoth(p: seq<int>, q: seq<int>)
    requires Smaller(p, q)
    ensures !Smaller(q, p) && p != q
  {
    hide Smaller;
    if p == [] {
      NoneIsSmaller(p, q);
    } else {
      SameLength(p, q);
      SmallerCons(p, q);
      SmallerCons(q, p);
      if p[0] == q[0] { NotBoth(p[1..], q[1..]); }
    }
  }

  lemma SameLength(p: seq<int>, q: seq<int>)
    requires Smaller(p, q)
    ensures |p| == |q|
  {
  }

  lemma NoneIsSmaller(p: seq<int>, q: seq<int>)
    requires p == []
    ensures !Smaller(p, q)
  {
  }

  /** The product lists the vectors in lexicographic order. */
  lemma {:induction false} CandidatesAscend(n: nat, i: nat, j: nat)
    requires i < j < |Candidates(n)|
    ensures Smaller(Candidates(n)[i], Candidates(n)[j])
  {
    hide Candidates, Smaller, Blocks, BlockOf;
    CandidatesUnfold(n);
    if n > 0 {
      var rest := Candidates(n - 1);
      var b, c := BlockOf(i, |rest|), BlockOf(j, |rest|);
      InBlock(rest, i);
      InBlock(rest, j);
      BlocksAscend(i, j, |rest|);
      assert |Candidates(n)[i]| == n == |Candidates(n)[j]|;
      SmallerCons(Candidates(n)[i], Candidates(n)[j]);
      if b == c { CandidatesAscend(n - 1, i - b * |rest|, j - b * |rest|); }
    }
  }

  lemma CandidatesUnfold(n: nat)
    ensures n == 0 ==> |Candidates(n)| == 1
    ensures n > 0 ==> Candidates(n) == Blocks(Candidates(n - 1))
  {
  }

  function Blocks(rest: seq<seq<int>>): seq<seq<int>> {
    Prefixed(-2, rest) + Prefixed(-1, rest) + Prefixed(0, rest) + Prefixed(1, rest)
  }

  function BlockOf(i: nat, k: nat): nat { if i < k then 0 else if i < 2 * k then 1 else if i < 3 * k then 2 else 3 }

  /** Block `b` holds the vectors that start with `b - 2`. */
  lemma InBlock(rest: seq<seq<int>>, i: nat)
    requires i < |Blocks(rest)|
    ensures var b := BlockOf(i, |rest|);
      b * |rest| <= i < (b + 1) * |rest| && Blocks(rest)[i] == [b - 2] + rest[i - b * |rest|]
  {
  }

  lemma BlocksAscend(i: nat, j: nat, k: nat)
    requires i < j
    ensures BlockOf(i, k) <= BlockOf(j, k)
  {
  }

  // ----- the search -----

  /** A loop variable, by number, plus an offset. */
  datatype Index = Index(lv: nat, shift: int)

  function Indices(pt: seq<int>): seq<Index> { seq(|pt|, i requires 0 <= i < |pt| => Index(i, pt[i])) }

  function Reversed<T>(s: seq<T>): (r: seq<T>)
    ensures |r| == |s| && forall k | 0 <= k < |s| :: r[k] == s[|s| - 1 - k]
  {
    if s == [] then [] else Reversed(s[1..]) + [s[0]]
  }

  lemma ShiftedStep(f: Flat, pt: seq<int>, i: nat)
    requires i < |pt| <= |f.strides|
    ensures Shifted(f, pt[..i + 1]) == Subs(Shifted(f, pt[..i]), i, pt[i])
    ensures Indices(pt[..i + 1]) == Indices(pt[..i]) + [Index(i, pt[i])]
  {
    hide Subs;
    assert pt[..i + 1][..i] == pt[..i];
  }

  lemma IndicesAre(pt: seq<int>)
    ensures |Indices(pt)| == |pt| == |Reversed(Indices(pt))|
    ensures forall i | 0 <= i < |pt| ::
      Indices(pt)[i] == Index(i, pt[i]) && Reversed(Indices(pt))[|pt| - 1 - i] == Index(i, pt[i])
  {
    hide Reversed;
  }

  lemma ShiftedNone(f: Flat)
    ensures Shifted(f, []) == f && Indices([]) == []
  {
  }

  /** The lexicographically smallest shift in reach that turns the index function into the location. */
  ghost predicate FirstMatch(func: Flat, loc: Flat, pt: seq<int>) {
    && InReach(pt, |func.strides|) && Shifted(func, pt) == loc
    && forall q | InReach(q, |func.strides|) && Smaller(q, pt) :: Shifted(func, q) != loc
  }

  lemma FirstIsSmallest(func: Flat, loc: Flat, at: nat)
    requires at < |Candidates(|func.strides|)| && Shifted(func, Candidates(|func.strides|)[at]) == loc
    requires forall k | 0 <= k < at :: Shifted(func, Candidates(|func.strides|)[k]) != loc
    ensures FirstMatch(func, loc, Candidates(|func.strides|)[at])
  {
    hide Candidates, Shifted, Smaller;
    var n := |func.strides|;
    var candidates := Candidates(n);
    forall q | InReach(q, n) && Smaller(q, candidates[at]) ensures Shifted(func, q) != loc {
      AllInReach(q, n);
      var k :| 0 <= k < |candidates| && candidates[k] == q;
      NotBoth(q, candidates[at]);
      if k > at { CandidatesAscend(n, at, k); }
    }
  }

  /** The first match in the order of the product is the smallest one in reach; its indices are
      returned, in reverse when the array's dimensions are. */
  method Resugar(func: Flat, loc: Flat, needToRev: bool) returns (c: Option<seq<Index>>)
    ensures if c.Some? then
        exists pt | FirstMatch(func, loc, pt) ::
          && |c.value| == |pt|
          && forall i | 0 <= i < |pt| ::
               c.value[if needToRev then |pt| - 1 - i else i] == Index(i, pt[i])
      else forall pt | InReach(pt, |func.strides|) :: Shifted(func, pt) != loc
    ensures c.Some? ==> Relinearises(func, loc, if needToRev then Reversed(c.value) else c.value)
  {
    hide Candidates, Shifted, Subs, Indices, Reversed;
    ShiftedNone(func);
    var candidates := Candidates(|func.strides|);
    for k := 0 to |candidates|
      invariant forall j | 0 <= j < k :: Shifted(func, candidates[j]) != loc
    {
      var pt := candidates[k];
      assert InReach(pt, |func.strides|);
      var e := func;
      var terms: seq<Index> := [];
      for i := 0 to |func.strides|
        invariant terms == Indices(pt[..i])
        invariant e == Shifted(func, pt[..i])
      {
        terms := terms + [Index(i, pt[i])];
        ShiftedStep(func, pt, i);
        e := Subs(e, i, pt[i]);
      }
      assert pt[..|pt|] == pt;
      if e == loc {
        FirstIsSmallest(func, loc, k);
        FoundIndicesRelinearise(func, loc, pt);
        ReversedTwice(Indices(pt));
        IndicesAre(pt);
        return Some(if needToRev then Reversed(terms) else terms);
      }
    }
    forall pt | InReach(pt, |func.strides|) ensures Shifted(func, pt) != loc { AllInReach(pt, |func.strides|); }
    c := None;
  }

  /** The search succeeds exactly for the locations at offsets from -2 to 1 in every variable. */
  lemma FoundIffInReach(func: Flat, loc: Flat)
    ensures (exists k | 0 <= k < |Candidates(|func.strides|)| :: Shifted(func, Candidates(|func.strides|)[k]) == loc)
       <==> exists pt | InReach(pt, |func.strides|) :: Shifted(func, pt) == loc
  {
    hide Candidates, Shifted;
    var n := |func.strides|;
    if pt :| InReach(pt, n) && Shifted(func, pt) == loc {
      AllInReach(pt, n);
    }
  }

  /** What is found re-linearises to the location, for all values of the loop variables and of
      the size parameters. */
  lemma FoundRelinearises(func: Flat, loc: Flat, pt: seq<int>, lv: seq<int>, w: seq<int>, m: nat)
    requires WellFormed(func, m) && |pt| == |lv| == |func.strides| && Shifted(func, pt) == loc
    ensures ValueAt(func, Moved(lv, pt), w) == ValueAt(loc, lv, w)
  {
    ShiftMeansMove(func, pt, lv, w, m);
  }

  /** The values of the indices: each one its loop variable plus its shift. */
  function Coordinates(c: seq<Index>, lv: seq<int>): seq<int>
    requires forall i | 0 <= i < |c| :: c[i].lv < |lv|
  {
    seq(|c|, i requires 0 <= i < |c| => lv[c[i].lv] + c[i].shift)
  }

  /** One index for each loop variable, in order, and at their values the index function has the
      location's value, for all values of the loop variables and of the size parameters. */
  ghost predicate Relinearises(func: Flat, loc: Flat, c: seq<Index>) {
    && |c| == |func.strides| == |loc.strides| && (forall i | 0 <= i < |c| :: c[i].lv == i)
    && forall lv: seq<int>, w: seq<int>, m: nat | |lv| == |c| && WellFormed(func, m) ::
         ValueAt(func, Coordinates(c, lv), w) == ValueAt(loc, lv, w)
  }

  lemma FoundIndicesRelinearise(func: Flat, loc: Flat, pt: seq<int>)
    requires |pt| == |func.strides| && Shifted(func, pt) == loc
    ensures Relinearises(func, loc, Indices(pt))
  {
    hide Shifted, ValueAt, WellFormed;
    var c := Indices(pt);
    forall lv: seq<int>, w: seq<int>, m: nat | |lv| == |c| && WellFormed(func, m)
      ensures ValueAt(func, Coordinates(c, lv), w) == ValueAt(loc, lv, w)
    {
      FoundRelinearises(func, loc, pt, lv, w, m);
      assert Coordinates(c, lv) == Moved(lv, pt);
    }
  }

  lemma ReversedTwice<T>(s: seq<T>)
    ensures Reversed(Reversed(s)) == s
  {
    hide Reversed;
  }

  // ----- uniqueness -----

  /** Sum of the strides before `n`, other than number `i`, that are at most stride `i`. */
  function SmallerSum(s: seq<int>, i: nat, n: nat): int
    requires i < |s| && n <= |s|
  {
    if n == 0 then 0 else SmallerSum(s, i, n - 1) + if n - 1 != i && s[n - 1] <= s[i] then s[n - 1] else 0
  }

  /** Every stride exceeds three times the sum of the smaller ones. */
  predicate Spread(s: seq<int>) { forall i | 0 <= i < |s| :: s[i] > 0 && s[i] > 3 * SmallerSum(s, i, |s|) }

  function Weighted(s: seq<int>, d: seq<int>, n: nat): int
    requires n <= |s| && n <= |d|
  {
    if n == 0 then 0 else Weighted(s, d, n - 1) + d[n - 1] * s[n - 1]
  }

  /** The place of the largest stride with a difference that is not zero. */
  lemma {:induction false} LargestMoved(s: seq<int>, d: seq<int>, n: nat) returns (i: nat)
    requires n <= |s| == |d| && exists k | 0 <= k < n :: d[k] != 0
    ensures i < n && d[i] != 0 && forall k | 0 <= k < n && d[k] != 0 :: s[k] <= s[i]
  {
    if k :| 0 <= k < n - 1 && d[k] != 0 {
      i := LargestMoved(s, d, n - 1);
      if d[n - 1] != 0 && s[n - 1] > s[i] { i := n - 1; }
    } else {
      i := n - 1;
    }
  }

  /** The other differences cannot outweigh the largest stride. */
  lemma {:induction false} OthersAreSmall(s: seq<int>, d: seq<int>, i: nat, n: nat)
    requires i < |s| == |d| && n <= |s| && (forall k | 0 <= k < |s| :: s[k] > 0 && -3 <= d[k] <= 3)
    requires forall k | 0 <= k < |s| && d[k] != 0 :: s[k] <= s[i]
    ensures var rest := Weighted(s, d, n) - if i < n then d[i] * s[i] else 0;
      -3 * SmallerSum(s, i, n) <= rest <= 3 * SmallerSum(s, i, n)
  {
    if n > 0 {
      OthersAreSmall(s, d, i, n - 1);
      Scaled(d[n - 1], s[n - 1]);
    }
  }

  lemma Scaled(d: int, s: int)
    requires -3 <= d <= 3 && s > 0
    ensures -3 * s <= d * s <= 3 * s && (d > 0 ==> d * s >= s) && (d < 0 ==> d * s <= -s) && (d == 0 ==> d * s == 0)
  {
  }

  lemma NoBalance(s: seq<int>, d: seq<int>)
    requires |s| == |d| && Spread(s) && (forall k | 0 <= k < |s| :: -3 <= d[k] <= 3) && Weighted(s, d, |s|) == 0
    ensures forall k | 0 <= k < |s| :: d[k] == 0
  {
    if k :| 0 <= k < |s| && d[k] != 0 {
      var i := LargestMoved(s, d, |s|);
      OthersAreSmall(s, d, i, |s|);
      Scaled(d[i], s[i]);
    }
  }

  function Strides(f: Flat, w: seq<int>): seq<int> {
    seq(|f.strides|, i requires 0 <= i < |f.strides| => Dot(f.strides[i], w))
  }

  function Difference(p: seq<int>, q: seq<int>): (d: seq<int>)
    requires |p| == |q|
    ensures |d| == |p|
  {
    seq(|p|, i requires 0 <= i < |p| => p[i] - q[i])
  }

  lemma {:induction false} SumIsWeighted(f: Flat, p: seq<int>, q: seq<int>, w: seq<int>, n: nat)
    requires n <= |f.strides| == |p| == |q|
    ensures Weighted(Strides(f, w), Difference(p, q), n)
      == Sum(f.strides[..n], p[..n], w) - Sum(f.strides[..n], q[..n], w)
  {
    hide Dot, Sum, Weighted;
    SumUpTo(f.strides, p, w, n);
    SumUpTo(f.strides, q, w, n);
    WeightedUpTo(f, p, q, w, n);
    if n > 0 {
      SumIsWeighted(f, p, q, w, n - 1);
      assert (p[n - 1] - q[n - 1]) * Dot(f.strides[n - 1], w)
        == p[n - 1] * Dot(f.strides[n - 1], w) - q[n - 1] * Dot(f.strides[n - 1], w);
    }
  }

  lemma SumUpTo(strides: seq<Vec>, lv: seq<int>, w: seq<int>, n: nat)
    requires n <= |strides| == |lv|
    ensures Sum(strides[..n], lv[..n], w)
      == if n == 0 then 0 else Sum(strides[..n - 1], lv[..n - 1], w) + lv[n - 1] * Dot(strides[n - 1], w)
  {
    hide Dot;
    if n > 0 { assert strides[..n][..n - 1] == strides[..n - 1] && lv[..n][..n - 1] == lv[..n - 1]; }
  }

  lemma WeightedUpTo(f: Flat, p: seq<int>, q: seq<int>, w: seq<int>, n: nat)
    requires n <= |f.strides| == |p| == |q|
    ensures Weighted(Strides(f, w), Difference(p, q), n)
      == if n == 0 then 0
         else Weighted(Strides(f, w), Difference(p, q), n - 1) + (p[n - 1] - q[n - 1]) * Dot(f.strides[n - 1], w)
  {
    hide Dot;
  }

  /** When for some sizes every stride exceeds three times the sum of the smaller ones, at most
      one candidate gives the location. */
  lemma ShiftIsUnique(func: Flat, p: seq<int>, q: seq<int>, w: seq<int>, m: nat)
    requires WellFormed(func, m) && Spread(Strides(func, w))
    requires InReach(p, |func.strides|) && InReach(q, |func.strides|) && Shifted(func, p) == Shifted(func, q)
    ensures p == q
  {
    hide Dot, Spread;
    OffsetShifted(func, p, w, m);
    OffsetShifted(func, q, w, m);
    var n := |func.strides|;
    assert func.strides[..n] == func.strides && p[..n] == p && q[..n] == q;
    SumIsWeighted(func, p, q, w, n);
    var d := Difference(p, q);
    NoBalance(Strides(func, w), d);
    forall i | 0 <= i < n ensures p[i] == q[i] { assert d[i] == 0; }
  }

  // ----- exactly when it is unique -----

  /** Coefficient `i` of the strides combined with the factors `d`. */
  function Combined(strides: seq<Vec>, d: seq<int>, i: nat): int
    requires |d| <= |strides|
  {
    if d == [] then 0
    else Combined(strides, d[..|d| - 1], i) + if i < |strides[|d| - 1]| then d[|d| - 1] * strides[|d| - 1][i] else 0
  }

  lemma {:induction false} OffsetAt(f: Flat, pt: seq<int>, i: nat, m: nat)
    requires WellFormed(f, m) && |pt| <= |f.strides| && i < m
    ensures |Shifted(f, pt).offset| == m && Shifted(f, pt).offset[i] == f.offset[i] + Combined(f.strides, pt, i)
  {
    if pt != [] { OffsetAt(f, pt[..|pt| - 1], i, m); }
  }

  lemma {:induction false} CombinedDifference(strides: seq<Vec>, p: seq<int>, q: seq<int>, i: nat)
    requires |p| == |q| <= |strides|
    ensures Combined(strides, Difference(p, q), i) == Combined(strides, p, i) - Combined(strides, q, i)
  {
    if p != [] {
      var n := |p| - 1;
      CombinedDifference(strides, p[..n], q[..n], i);
      assert Difference(p, q)[..n] == Difference(p[..n], q[..n]);
      if i < |strides[n]| { Distribute(p[n], q[n], strides[n][i]); }
    }
  }

  lemma Distribute(a: int, b: int, c: int)
    ensures (a - b) * c == a * c - b * c
  {
  }

  lemma OffsetLength(f: Flat, pt: seq<int>, m: nat)
    requires WellFormed(f, m) && |pt| <= |f.strides|
    ensures |Shifted(f, pt).offset| == m
  {
    OffsetShifted(f, pt, [], m);
  }

  /** Differences of two candidates. */
  predicate Reachable(d: seq<int>, n: nat) { |d| == n && forall i | 0 <= i < n :: -3 <= d[i] <= 3 }

  ghost predicate Cancels(f: Flat, d: seq<int>, m: nat)
    requires |d| <= |f.strides|
  {
    forall i | 0 <= i < m :: Combined(f.strides, d, i) == 0
  }

  /** Two points give the same expression when their difference combines the strides to nothing. */
  lemma SameShift(f: Flat, p: seq<int>, q: seq<int>, m: nat)
    requires WellFormed(f, m) && |p| == |q| == |f.strides|
    ensures Shifted(f, p) == Shifted(f, q) <==> Cancels(f, Difference(p, q), m)
  {
    hide Shifted, Combined, Difference, WellFormed;
    OffsetLength(f, p, m);
    OffsetLength(f, q, m);
    var a, b := Shifted(f, p).offset, Shifted(f, q).offset;
    var d := Difference(p, q);
    forall i | 0 <= i < m ensures a[i] == b[i] <==> Combined(f.strides, d, i) == 0 {
      OffsetAt(f, p, i, m);
      OffsetAt(f, q, i, m);
      CombinedDifference(f.strides, p, q, i);
    }
    assert a == b <==> forall i | 0 <= i < m :: a[i] == b[i];
    assert Shifted(f, p) == Flat(f.strides, a) && Shifted(f, q) == Flat(f.strides, b);
  }

  ghost predicate UniqueShifts(f: Flat) {
    forall p, q | InReach(p, |f.strides|) && InReach(q, |f.strides|) && Shifted(f, p) == Shifted(f, q) :: p == q
  }

  lemma DifferenceReachable(p: seq<int>, q: seq<int>, n: nat)
    requires InReach(p, n) && InReach(q, n)
    ensures Reachable(Difference(p, q), n)
  {
  }

  /** Shifts are unique if and only if no factors from -3 to 3, not all zero, cancel the strides. */
  lemma UniqueIffNothingCancels(f: Flat, m: nat)
    requires WellFormed(f, m)
    ensures UniqueShifts(f)
      <==> forall d | Reachable(d, |f.strides|) && Cancels(f, d, m) :: forall i | 0 <= i < |d| :: d[i] == 0
  {
    hide Shifted, Combined, WellFormed;
    var n := |f.strides|;
    if UniqueShifts(f) {
      forall d | Reachable(d, n) && Cancels(f, d, m) ensures forall i | 0 <= i < |d| :: d[i] == 0 {
        var p := seq(n, i requires 0 <= i < n => -2 + if d[i] > 0 then d[i] else 0);
        var q := seq(n, i requires 0 <= i < n => -2 + if d[i] < 0 then -d[i] else 0);
        assert Difference(p, q) == d;
        SameShift(f, p, q, m);
        assert p == q;
        forall i | 0 <= i < n ensures d[i] == 0 { assert p[i] == q[i]; }
      }
    }
    if forall d | Reachable(d, n) && Cancels(f, d, m) :: forall i | 0 <= i < |d| :: d[i] == 0 {
      forall p, q | InReach(p, n) && InReach(q, n) && Shifted(f, p) == Shifted(f, q) ensures p == q {
        SameShift(f, p, q, m);
        var d := Difference(p, q);
        DifferenceReachable(p, q, n);
        forall i | 0 <= i < n ensures p[i] == q[i] { assert d[i] == 0; }
      }
    }
  }
}
