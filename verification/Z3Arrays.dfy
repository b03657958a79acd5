/** Flat arrays as nested arrays for Z3: `construct_select` and `nester`
    (backend/assertion_to_z3.py:65-69, 79-106). */
module Z3Arrays {
  import opened StencilIr
  import opened Interpret

  /** Values of curried arrays: a cell, or an array of such values. */
  datatype Z = Cell(v: Value) | Curried(at: int -> Z)

  function SelectZ(z: Z, i: int): Z { if z.Curried? then z.at(i) else z }

  function StoreZ(z: Z, i: int, x: Z): Z { Curried(j => if j == i then x else SelectZ(z, j)) }

  /** The terms the encoder prints. */
  datatype Term = Name(name: string) | Data(e: Exp) | Sel(a: Term, i: Term) | Sto(a: Term, i: Term, x: Term)

  function AsInt(z: Z): int { if z.Cell? && z.v.IntV? then z.v.i else 0 }

  function EvalZ(t: Term, arrays: string -> Z, s: State, m: Model): Z {
    match t
    case Name(x) => arrays(x)
    case Data(e) => Cell(Eval(e, s, m))
    case Sel(a, i) => SelectZ(EvalZ(a, arrays, s, m), AsInt(EvalZ(i, arrays, s, m)))
    case Sto(a, i, x) => StoreZ(EvalZ(a, arrays, s, m), AsInt(EvalZ(i, arrays, s, m)), EvalZ(x, arrays, s, m))
  }

  // ----- the encoder -----

  function ConstructSelect(terms: seq<Term>): Term
    requires |terms| >= 2
  {
    if |terms| == 2 then Sel(terms[0], terms[1])
    else Sel(ConstructSelect(terms[..|terms| - 1]), terms[|terms| - 1])
  }

  function Nester(m: seq<Term>, aug: Term): Term
    requires |m| >= 2
    decreases |m|
  {
    if |m| == 2 then Sto(m[0], m[1], aug)
    else Sto(m[0], m[1], Nester([ConstructSelect(m[..2])] + m[2..], aug))
  }

  // ----- what the terms denote -----

  /** The value of nested array `z` at an index vector. */
  function Read(z: Z, v: seq<int>): Z {
    if v == [] then z else SelectZ(Read(z, v[..|v| - 1]), v[|v| - 1])
  }

  function Ints(terms: seq<Term>, arrays: string -> Z, s: State, m: Model): seq<int> {
    seq(|terms|, i requires 0 <= i < |terms| => AsInt(EvalZ(terms[i], arrays, s, m)))
  }

  lemma {:induction false} SelectDenotes(a: Term, indices: seq<Term>, arrays: string -> Z, s: State, m: Model)
    requires indices != []
    ensures EvalZ(ConstructSelect([a] + indices), arrays, s, m)
      == Read(EvalZ(a, arrays, s, m), Ints(indices, arrays, s, m))
  {
    var terms := [a] + indices;
    var n := |indices| - 1;
    var v := Ints(indices, arrays, s, m);
    assert v[..n] == Ints(indices[..n], arrays, s, m);
    if n > 0 {
      assert terms[..|terms| - 1] == [a] + indices[..n];
      SelectDenotes(a, indices[..n], arrays, s, m);
    }
  }

  lemma {:induction false} ReadFirst(z: Z, v: seq<int>)
    requires v != []
    ensures Read(z, v) == Read(SelectZ(z, v[0]), v[1..])
  {
    if |v| > 1 {
      var n := |v| - 1;
      ReadFirst(z, v[..n]);
      assert v[..n][1..] == v[1..][..n - 1];
    }
  }

  /** Nested array `z` with another value at an index vector. */
  function Write(z: Z, v: seq<int>, x: Value): Z
    requires v != []
    decreases |v|
  {
    if |v| == 1 then StoreZ(z, v[0], Cell(x)) else StoreZ(z, v[0], Write(SelectZ(z, v[0]), v[1..], x))
  }

  lemma {:induction false} ReadOfWrite(z: Z, v: seq<int>, x: Value, w: seq<int>)
    requires |w| == |v| > 0
    ensures Read(Write(z, v, x), w) == if w == v then Cell(x) else Read(z, w)
    decreases |v|
  {
    ReadFirst(Write(z, v, x), w);
    ReadFirst(z, w);
    if |v| == 1 {
      assert w[1..] == [] && w == [w[0]] && v == [v[0]];
    } else {
      ReadOfWrite(SelectZ(z, v[0]), v[1..], x, w[1..]);
      assert w == [w[0]] + w[1..] && v == [v[0]] + v[1..];
    }
  }

  lemma {:induction false} NesterDenotes(a: Term, indices: seq<Term>, e: Exp, arrays: string -> Z, s: State, m: Model)
    requires indices != []
    ensures EvalZ(Nester([a] + indices, Data(e)), arrays, s, m)
      == Write(EvalZ(a, arrays, s, m), Ints(indices, arrays, s, m), Eval(e, s, m))
    decreases |indices|
  {
    hide Nester, ConstructSelect, Eval, Ints;
    NesterUnfold(a, indices, Data(e));
    IntsFirst(indices, arrays, s, m);
    if |indices| > 1 { NesterDenotes(Sel(a, indices[0]), indices[1..], e, arrays, s, m); }
  }

  lemma IntsFirst(indices: seq<Term>, arrays: string -> Z, s: State, m: Model)
    requires indices != []
    ensures var v := Ints(indices, arrays, s, m);
      && |v| == |indices| && v[0] == AsInt(EvalZ(indices[0], arrays, s, m))
      && v[1..] == Ints(indices[1..], arrays, s, m)
  {
    hide EvalZ;
  }

  /** Reading any index vector from the update gives the new value at the updated vector and
      the old value everywhere else, for vectors of any length. */
  lemma NesterReads(a: Term, indices: seq<Term>, e: Exp, w: seq<int>, arrays: string -> Z, s: State, m: Model)
    requires |w| == |indices| > 0
    ensures Read(EvalZ(Nester([a] + indices, Data(e)), arrays, s, m), w) ==
      if w == Ints(indices, arrays, s, m) then Cell(Eval(e, s, m)) else Read(EvalZ(a, arrays, s, m), w)
  {
    hide Nester, Read, Write, Eval;
    NesterDenotes(a, indices, e, arrays, s, m);
    ReadOfWrite(EvalZ(a, arrays, s, m), Ints(indices, arrays, s, m), Eval(e, s, m), w);
  }

  lemma NesterUnfold(a: Term, indices: seq<Term>, aug: Term)
    requires indices != []
    ensures Nester([a] + indices, aug) ==
      Sto(a, indices[0], if |indices| == 1 then aug else Nester([Sel(a, indices[0])] + indices[1..], aug))
  {
    var m := [a] + indices;
    assert m[..2] == [a, indices[0]] && m[2..] == indices[1..];
  }

  // ----- simulation of flat arrays -----

  /** Curried array `z` holds flat array `a`, seen through the index map `idx` on vectors of
      length `n` in `dom`. */
  ghost predicate Simulates(z: Z, a: Value, idx: seq<int> -> int, dom: seq<int> -> bool, n: nat) {
    forall v: seq<int> | |v| == n && dom(v) :: Read(z, v) == Cell(Select(a, IntV(idx(v))))
  }

  ghost predicate Injective(idx: seq<int> -> int, dom: seq<int> -> bool, n: nat) {
    forall v: seq<int>, w: seq<int> | |v| == n && |w| == n && dom(v) && dom(w) && idx(v) == idx(w) :: v == w
  }

  function Coordinates(es: seq<Exp>): seq<Term> { seq(|es|, i requires 0 <= i < |es| => Data(es[i])) }

  function Vector(es: seq<Exp>, s: State, m: Model): seq<int> {
    seq(|es|, i requires 0 <= i < |es| => var v := Eval(es[i], s, m); if v.IntV? then v.i else 0)
  }

  lemma CoordinatesDenote(es: seq<Exp>, arrays: string -> Z, s: State, m: Model)
    ensures Ints(Coordinates(es), arrays, s, m) == Vector(es, s, m)
  {
    hide Eval;
  }

  /** When the coordinates re-linearise to the flat location, the encoded read is the flat read. */
  lemma ReadSimulated(a: string, loc: Exp, es: seq<Exp>, arrays: string -> Z, s: State, m: Model, idx: seq<int> -> int,
                      dom: seq<int> -> bool)
    requires es != [] && Simulates(arrays(a), Lookup(s, a), idx, dom, |es|)
    requires dom(Vector(es, s, m)) && Eval(loc, s, m) == IntV(idx(Vector(es, s, m)))
    ensures EvalZ(ConstructSelect([Name(a)] + Coordinates(es)), arrays, s, m) == Cell(Eval(Arr(Var(a), loc), s, m))
  {
    hide ConstructSelect, Ints, Read, Coordinates, Vector;
    LengthOf(es, s, m);
    SelectDenotes(Name(a), Coordinates(es), arrays, s, m);
    CoordinatesDenote(es, arrays, s, m);
  }

  lemma LengthOf(es: seq<Exp>, s: State, m: Model)
    ensures |Coordinates(es)| == |es| == |Vector(es, s, m)|
    ensures es != [] ==> Coordinates(es) != []
  {
  }

  /** The nested update simulates the interpreter's assignment to the flat array. */
  lemma AssignmentSimulated(a: string, loc: Exp, e: Exp, es: seq<Exp>, arrays: string -> Z, s: State, m: Model,
                            idx: seq<int> -> int, dom: seq<int> -> bool, fuel: nat)
    requires es != [] && Simulates(arrays(a), Lookup(s, a), idx, dom, |es|) && Injective(idx, dom, |es|)
    requires dom(Vector(es, s, m)) && Eval(loc, s, m) == IntV(idx(Vector(es, s, m)))
    ensures var t := Run(AssignArr(a, loc, e), s, fuel, m);
      && t.Some?
      && Simulates(EvalZ(Nester([Name(a)] + Coordinates(es), Data(e)), arrays, s, m), Lookup(t.value, a), idx, dom,
                   |es|)
  {
    hide Nester, Ints, Read, Coordinates, Vector, Eval;
    LengthOf(es, s, m);
    CoordinatesDenote(es, arrays, s, m);
    var z' := EvalZ(Nester([Name(a)] + Coordinates(es), Data(e)), arrays, s, m);
    var before := Lookup(s, a);
    var after := Store(before, Eval(loc, s, m), Eval(e, s, m));
    var at := Vector(es, s, m);
    assert EvalZ(Data(e), arrays, s, m) == Cell(Eval(e, s, m)) && EvalZ(Name(a), arrays, s, m) == arrays(a);
    forall w: seq<int> | |w| == |es| && dom(w) ensures Read(z', w) == Cell(Select(after, IntV(idx(w)))) {
      NesterReads(Name(a), Coordinates(es), e, w, arrays, s, m);
      SelectOfStore(before, idx(at), Eval(e, s, m), idx(w));
    }
  }

  lemma SelectOfStore(a: Value, i: int, x: Value, j: int)
    ensures Select(Store(a, IntV(i), x), IntV(j)) == if j == i then x else Select(a, IntV(j))
  {
  }

  // ----- injectivity is what it takes -----

  ghost predicate UpdatesSimulated(idx: seq<int> -> int, dom: seq<int> -> bool, n: nat)
    requires n > 0
  {
    forall z: Z, a: Value, v: seq<int>, x: Value | |v| == n && dom(v) && Simulates(z, a, idx, dom, n) ::
      Simulates(Write(z, v, x), Store(a, IntV(idx(v)), x), idx, dom, n)
  }

  /** Every update is simulated if and only if the index map is injective on the vectors used. */
  lemma SimulationIffInjective(idx: seq<int> -> int, dom: seq<int> -> bool, n: nat)
    requires n > 0
    ensures UpdatesSimulated(idx, dom, n) <==> Injective(idx, dom, n)
  {
    hide Read, Write, Select, Store;
    if Injective(idx, dom, n) {
      forall z: Z, a: Value, v: seq<int>, x: Value | |v| == n && dom(v) && Simulates(z, a, idx, dom, n)
        ensures Simulates(Write(z, v, x), Store(a, IntV(idx(v)), x), idx, dom, n)
      {
        forall w: seq<int> | |w| == n && dom(w)
          ensures Read(Write(z, v, x), w) == Cell(Select(Store(a, IntV(idx(v)), x), IntV(idx(w))))
        {
          ReadOfWrite(z, v, x, w);
          SelectOfStore(a, idx(v), x, idx(w));
        }
      }
    }
    if UpdatesSimulated(idx, dom, n) {
      forall v: seq<int>, w: seq<int> | |v| == n && |w| == n && dom(v) && dom(w) && idx(v) == idx(w) ensures v == w {
        BlankSimulated(idx, dom, n);
        var z, a := Cell(Undef), ArrV(map[]);
        assert Simulates(Write(z, v, IntV(1)), Store(a, IntV(idx(v)), IntV(1)), idx, dom, n);
        ReadOfWrite(z, v, IntV(1), w);
        ReadBlank(w);
        SelectOfStore(a, idx(v), IntV(1), idx(w));
      }
    }
  }

  lemma {:induction false} ReadBlank(v: seq<int>)
    ensures Read(Cell(Undef), v) == Cell(Undef)
  {
    if v != [] { ReadBlank(v[..|v| - 1]); }
  }

  lemma BlankSimulated(idx: seq<int> -> int, dom: seq<int> -> bool, n: nat)
    ensures Simulates(Cell(Undef), ArrV(map[]), idx, dom, n)
  {
    forall v: seq<int> | |v| == n && dom(v)
      ensures Read(Cell(Undef), v) == Cell(Select(ArrV(map[]), IntV(idx(v))))
    {
      ReadBlank(v);
    }
  }
}
