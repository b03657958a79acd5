/** The attribute-grammar engine of the bundled AST library: a stack machine
    (frontend/include/AstProcessing.h:686-849, frontend/include/StackFrameVector.h). */
module Traversal {

  /** A tree node, or a null child. */
  datatype Tree<L> = Null | Node(tag: L, kids: seq<Tree<L>>)

  /** What a concrete traversal defines: side-effect-free evaluation of its attributes. */
  datatype Grammar<!L, !I, !S> = Grammar(
    evaluateInherited: (L, I) -> I,
    evaluateSynthesized: (L, I, seq<S>) -> S,
    defaultSynthesized: I -> S)

  /** The order bits, and which nodes lie in the file to traverse. */
  datatype Order<!L> = Order(pre: bool, post: bool, inFile: L -> bool)

  /** One call of a function of the grammar on a node. */
  datatype Visit<L> = Down(tag: L) | Up(tag: L)

  // ----- the recursive attribute grammar -----

  function Inherited<L, I, S>(g: Grammar<L, I, S>, o: Order<L>, tag: L, inh: I): I {
    if o.pre then g.evaluateInherited(tag, inh) else inh
  }

  predicate Visited<L>(o: Order<L>, t: Tree<L>) { t.Node? && o.inFile(t.tag) }

  function Synth<L, I, S>(g: Grammar<L, I, S>, o: Order<L>, t: Tree<L>, inh: I): S {
    if !Visited(o, t) then g.defaultSynthesized(inh)
    else
      var own := Inherited(g, o, t.tag, inh);
      g.evaluateSynthesized(t.tag, own, SynthAll(g, o, t.kids, own))
  }

  function SynthAll<L, I, S>(g: Grammar<L, I, S>, o: Order<L>, ts: seq<Tree<L>>, inh: I): (r: seq<S>)
    ensures |r| == |ts|
    ensures forall k | 0 <= k < |ts| :: r[k] == Synth(g, o, ts[k], inh)
  {
    if ts == [] then [] else SynthAll(g, o, ts[..|ts| - 1], inh) + [Synth(g, o, ts[|ts| - 1], inh)]
  }

  /** The calls made on the nodes, in order. */
  function Visits<L>(o: Order<L>, t: Tree<L>): seq<Visit<L>> {
    if !Visited(o, t) then []
    else DownCall(o, t.tag) + VisitsAll(o, t.kids) + UpCall(o, t.tag)
  }

  function VisitsAll<L>(o: Order<L>, ts: seq<Tree<L>>): seq<Visit<L>> {
    if ts == [] then [] else VisitsAll(o, ts[..|ts| - 1]) + Visits(o, ts[|ts| - 1])
  }

  lemma OneMore<L, I, S>(g: Grammar<L, I, S>, o: Order<L>, ts: seq<Tree<L>>, n: nat, inh: I)
    requires n < |ts|
    ensures SynthAll(g, o, ts[..n + 1], inh) == SynthAll(g, o, ts[..n], inh) + [Synth(g, o, ts[n], inh)]
    ensures VisitsAll(o, ts[..n + 1]) == VisitsAll(o, ts[..n]) + Visits(o, ts[n])
  {
    hide Synth, Visits;
    var some := ts[..n + 1];
    assert some[..n] == ts[..n] && some[n] == ts[n];
  }

  /** The stack with the results `xs` on top, when the order produces results. */
  function Grown<L, S>(below: seq<S>, o: Order<L>, xs: seq<S>): seq<S> { if o.post then below + xs else below }

  lemma GrownByOne<L, S>(below: seq<S>, o: Order<L>, xs: seq<S>, x: S)
    ensures Grown(below, o, xs + [x]) == Grown(Grown(below, o, xs), o, [x])
  {
    assert below + (xs + [x]) == below + xs + [x];
  }

  lemma Growing<L, S>(below: seq<S>, o: Order<L>, xs: seq<S>)
    ensures Grown(below, o, []) == below
    ensures Grown(below, o, xs) == if o.post then below + xs else below
  {
    assert below + [] == below;
  }

  /** The calls once `more` have followed. */
  function Then<L>(calls: seq<Visit<L>>, more: seq<Visit<L>>): seq<Visit<L>> { calls + more }

  lemma ThenBoth<L>(calls: seq<Visit<L>>, a: seq<Visit<L>>, b: seq<Visit<L>>)
    ensures Then(Then(calls, a), b) == Then(calls, a + b)
    ensures Then(calls, []) == calls
  {
    assert calls + a + b == calls + (a + b);
  }

  function DownCall<L>(o: Order<L>, tag: L): seq<Visit<L>> { if o.pre then [Down(tag)] else [] }

  function UpCall<L>(o: Order<L>, tag: L): seq<Visit<L>> { if o.post then [Up(tag)] else [] }

  lemma NoChildren<L, I, S>(g: Grammar<L, I, S>, o: Order<L>, inh: I)
    ensures SynthAll(g, o, [], inh) == [] && VisitsAll(o, []) == []
  {
  }

  lemma Unfold<L, I, S>(g: Grammar<L, I, S>, o: Order<L>, t: Tree<L>, inh: I)
    ensures Synth(g, o, t, inh) ==
      if t.Node? && o.inFile(t.tag) then
        var own := if o.pre then g.evaluateInherited(t.tag, inh) else inh;
        g.evaluateSynthesized(t.tag, own, SynthAll(g, o, t.kids, own))
      else g.defaultSynthesized(inh)
    ensures Visits(o, t) ==
      if t.Node? && o.inFile(t.tag) then DownCall(o, t.tag) + VisitsAll(o, t.kids) + UpCall(o, t.tag)
      else []
  {
    hide SynthAll, VisitsAll;
  }

  // ----- the stack -----

  /** StackFrameVector.h: the elements below `stackPtr` are live, those from `framePtr` on are
      the current frame, and `push` replaces that frame; what lies above `stackPtr` is junk. */
  class StackFrameVector<T> {
    var buffer: seq<T>
    var framePtr: nat
    var stackPtr: nat

    ghost predicate Valid() reads this { framePtr <= stackPtr <= |buffer| }

    ghost function Contents(): seq<T>
      reads this
      requires Valid()
    {
      buffer[..stackPtr]
    }

    constructor ()
      ensures Valid() && framePtr == stackPtr && Contents() == []
    {
      buffer := [];
      framePtr, stackPtr := 0, 0;
    }

    function Size(): nat
      reads this
      requires Valid()
    {
      stackPtr - framePtr
    }

    function DebugSize(): nat reads this { stackPtr }

    /** The elements between `begin()` and `end()`. */
    function Frame(): seq<T>
      reads this
      requires Valid()
    {
      buffer[framePtr..stackPtr]
    }

    method Push(x: T)
      requires Valid()
      modifies this
      ensures Valid() && framePtr == stackPtr
      ensures Contents() == old(Contents()[..framePtr]) + [x]
    {
      if framePtr == |buffer| {
        buffer := buffer + [x];
        framePtr, stackPtr := |buffer|, |buffer|;
      } else {
        buffer := buffer[framePtr := x];
        framePtr := framePtr + 1;
        stackPtr := framePtr;
      }
    }

    method SetFrameSize(frameSize: nat)
      requires Valid() && frameSize <= stackPtr
      modifies this`framePtr
      ensures Valid() && Size() == frameSize && Contents() == old(Contents())
    {
      framePtr := stackPtr - frameSize;
    }

    method ResetStack()
      requires Valid()
      modifies this
      ensures Valid() && framePtr == stackPtr && Contents() == []
    {
      framePtr, stackPtr := 0, 0;
    }

    method Pop() returns (x: T)
      requires Valid() && framePtr > 0
      modifies this
      ensures Valid() && Size() == old(Size())
      ensures old(Contents()) == Contents() + [x]
    {
      framePtr, stackPtr := framePtr - 1, stackPtr - 1;
      x := buffer[stackPtr];
    }
  }

  // ----- the traversal -----

  class SgTreeTraversal<L, I, S> {
    const g: Grammar<L, I, S>
    /** What an attribute is when nothing is computed. */
    const blank: S
    const synthesizedAttributes: StackFrameVector<S>
    ghost var calls: seq<Visit<L>>

    ghost predicate Valid()
      reads this, synthesizedAttributes
    {
      synthesizedAttributes.Valid()
    }

    constructor (g: Grammar<L, I, S>, blank: S)
      ensures Valid() && this.g == g && this.blank == blank && fresh(synthesizedAttributes)
    {
      this.g, this.blank := g, blank;
      synthesizedAttributes := new StackFrameVector<S>();
      calls := [];
    }

    /** With the postorder bit the stack gains exactly the synthesized attribute of the tree;
        without it the stack is as before. */
    method PerformTraversal(node: Tree<L>, inheritedValue: I, order: Order<L>)
      requires Valid() && synthesizedAttributes.Size() == 0
      modifies this`calls, synthesizedAttributes
      ensures Valid() && synthesizedAttributes.Size() == 0
      ensures synthesizedAttributes.Contents()
        == Grown(old(synthesizedAttributes.Contents()), order, [Synth(g, order, node, inheritedValue)])
      ensures calls == Then(old(calls), Visits(order, node))
      decreases node
    {
      hide Synth, SynthAll, Visits, VisitsAll, Grown, Then, DownCall, UpCall;
      Unfold(g, order, node, inheritedValue);
      var own := inheritedValue;
      ghost var below := synthesizedAttributes.Contents();
      Growing(below, order, [Synth(g, order, node, inheritedValue)]);
      if node.Node? && order.inFile(node.tag) {
        if order.pre {
          own := g.evaluateInherited(node.tag, inheritedValue);
        }
        calls := Then(calls, DownCall(order, node.tag));
        ghost var before := calls;
        NoChildren(g, order, own);
        ThenBoth(before, [], []);
        Growing(below, order, SynthAll(g, order, node.kids, own));
        var numberOfSuccessors := |node.kids|;
        for idx := 0 to numberOfSuccessors
          invariant Valid() && synthesizedAttributes.Size() == 0
          invariant synthesizedAttributes.Contents() == Grown(below, order, SynthAll(g, order, node.kids[..idx], own))
          invariant calls == Then(before, VisitsAll(order, node.kids[..idx]))
        {
          OneMore(g, order, node.kids, idx, own);
          ThenBoth(before, VisitsAll(order, node.kids[..idx]), Visits(order, node.kids[idx]));
          GrownByOne(below, order, SynthAll(g, order, node.kids[..idx], own), Synth(g, order, node.kids[idx], own));
          var child := node.kids[idx];
          Unfold(g, order, child, own);
          Growing(synthesizedAttributes.Contents(), order, [Synth(g, order, child, own)]);
          ThenBoth(calls, [], []);
          if child != Null {
            PerformTraversal(child, own, order);
          } else if order.post {
            synthesizedAttributes.Push(g.defaultSynthesized(own));
          }
        }
        assert node.kids[..numberOfSuccessors] == node.kids;
        if order.post {
          synthesizedAttributes.SetFrameSize(numberOfSuccessors);
          assert synthesizedAttributes.Frame() == SynthAll(g, order, node.kids, own);
          synthesizedAttributes.Push(g.evaluateSynthesized(node.tag, own, synthesizedAttributes.Frame()));
        }
        calls := Then(calls, UpCall(order, node.tag));
        ThenBoth(old(calls), DownCall(order, node.tag), VisitsAll(order, node.kids));
        ThenBoth(old(calls), DownCall(order, node.tag) + VisitsAll(order, node.kids), UpCall(order, node.tag));
      } else {
        ThenBoth(calls, [], []);
        if order.post {
          synthesizedAttributes.Push(g.defaultSynthesized(inheritedValue));
        }
      }
    }

    method TraversalResult() returns (r: S)
      requires Valid() && synthesizedAttributes.Size() == 0
      modifies synthesizedAttributes
      ensures Valid()
      ensures r ==
        if |old(synthesizedAttributes.Contents())| == 1 then old(synthesizedAttributes.Contents()[0]) else blank
    {
      if synthesizedAttributes.DebugSize() == 1 {
        r := synthesizedAttributes.Pop();
      } else {
        r := blank;
      }
    }

    /** `traverse` returns the recursively defined attribute, whatever an earlier, aborted
        traversal left on the stack. */
    method Traverse(node: Tree<L>, inheritedValue: I, order: Order<L>) returns (r: S)
      requires Valid()
      modifies this`calls, synthesizedAttributes
      ensures Valid()
      ensures r == if order.post then Synth(g, order, node, inheritedValue) else blank
      ensures calls == Visits(order, node)
    {
      synthesizedAttributes.ResetStack();
      calls := [];
      PerformTraversal(node, inheritedValue, order);
      r := TraversalResult();
    }
  }

  // ----- the order of the calls -----

  function Preorder<L>(o: Order<L>, t: Tree<L>): seq<L> {
    if !Visited(o, t) then [] else [t.tag] + Preorders(o, t.kids)
  }

  function Preorders<L>(o: Order<L>, ts: seq<Tree<L>>): seq<L> {
    if ts == [] then [] else Preorder(o, ts[0]) + Preorders(o, ts[1..])
  }

  function Postorder<L>(o: Order<L>, t: Tree<L>): seq<L> {
    if !Visited(o, t) then [] else Postorders(o, t.kids) + [t.tag]
  }

  function Postorders<L>(o: Order<L>, ts: seq<Tree<L>>): seq<L> {
    if ts == [] then [] else Postorder(o, ts[0]) + Postorders(o, ts[1..])
  }

  function Downs<L>(vs: seq<Visit<L>>): seq<L> {
    if vs == [] then [] else Downs(vs[..|vs| - 1]) + if vs[|vs| - 1].Down? then [vs[|vs| - 1].tag] else []
  }

  function Ups<L>(vs: seq<Visit<L>>): seq<L> {
    if vs == [] then [] else Ups(vs[..|vs| - 1]) + if vs[|vs| - 1].Up? then [vs[|vs| - 1].tag] else []
  }

  lemma {:induction false} DownsUpsConcat<L>(a: seq<Visit<L>>, b: seq<Visit<L>>)
    ensures Downs(a + b) == Downs(a) + Downs(b) && Ups(a + b) == Ups(a) + Ups(b)
  {
    if b == [] {
      assert a + b == a;
    } else {
      var n := |b| - 1;
      assert (a + b)[..|a + b| - 1] == a + b[..n] && (a + b)[|a + b| - 1] == b[n];
      DownsUpsConcat(a, b[..n]);
    }
  }

  lemma {:induction false} OrdersConcat<L>(o: Order<L>, a: seq<Tree<L>>, b: seq<Tree<L>>)
    ensures Preorders(o, a + b) == Preorders(o, a) + Preorders(o, b)
    ensures Postorders(o, a + b) == Postorders(o, a) + Postorders(o, b)
  {
    if a == [] {
      assert a + b == b;
    } else {
      assert (a + b)[0] == a[0] && (a + b)[1..] == a[1..] + b;
      OrdersConcat(o, a[1..], b);
    }
  }

  /** The calls on a node, around those on its children. */
  lemma DownsUpsAround<L>(o: Order<L>, tag: L, inner: seq<Visit<L>>)
    ensures var all := (if o.pre then [Down(tag)] else []) + inner + (if o.post then [Up(tag)] else []);
      && Downs(all) == (if o.pre then [tag] else []) + Downs(inner)
      && Ups(all) == Ups(inner) + (if o.post then [tag] else [])
  {
    hide Downs, Ups;
    var first := if o.pre then [Down(tag)] else [];
    var last := if o.post then [Up(tag)] else [];
    DownsUpsConcat(first, inner);
    DownsUpsConcat(first + inner, last);
    DownsUpsSingle(Down(tag));
    DownsUpsSingle(Up(tag));
    DownsUpsNone<L>();
  }

  lemma DownsUpsNone<L>()
    ensures Downs<L>([]) == [] && Ups<L>([]) == []
  {
  }

  lemma DownsUpsSingle<L>(v: Visit<L>)
    ensures Downs([v]) == if v.Down? then [v.tag] else []
    ensures Ups([v]) == if v.Up? then [v.tag] else []
  {
    assert [v][..0] == [];
  }

  /** The inherited attributes are evaluated in preorder and the synthesized ones in postorder,
      each when its bit is set, over the nodes outside skipped subtrees. */
  lemma {:induction false} CallsFollowTheOrder<L>(o: Order<L>, t: Tree<L>)
    ensures Downs(Visits(o, t)) == if o.pre then Preorder(o, t) else []
    ensures Ups(Visits(o, t)) == if o.post then Postorder(o, t) else []
  {
    hide Downs, Ups, VisitsAll, Preorders, Postorders;
    DownsUpsNone<L>();
    if Visited(o, t) {
      CallsFollowTheOrderAll(o, t.kids);
      DownsUpsAround(o, t.tag, VisitsAll(o, t.kids));
    }
  }

  lemma {:induction false} CallsFollowTheOrderAll<L>(o: Order<L>, ts: seq<Tree<L>>)
    ensures Downs(VisitsAll(o, ts)) == if o.pre then Preorders(o, ts) else []
    ensures Ups(VisitsAll(o, ts)) == if o.post then Postorders(o, ts) else []
  {
    hide Downs, Ups, Visits, VisitsAll, Preorder, Preorders, Postorder, Postorders;
    NoTrees(o);
    if ts != [] {
      var n := |ts| - 1;
      CallsFollowTheOrderAll(o, ts[..n]);
      CallsFollowTheOrder(o, ts[n]);
      DownsUpsConcat(VisitsAll(o, ts[..n]), Visits(o, ts[n]));
      OrdersConcat(o, ts[..n], [ts[n]]);
      assert ts == ts[..n] + [ts[n]];
      LastTree(o, ts);
      OneTree(o, ts[n]);
    }
  }

  lemma NoTrees<L>(o: Order<L>)
    ensures Downs<L>([]) == [] && Ups<L>([]) == [] && VisitsAll(o, []) == []
    ensures Preorders(o, []) == [] && Postorders(o, []) == []
  {
  }

  lemma LastTree<L>(o: Order<L>, ts: seq<Tree<L>>)
    requires ts != []
    ensures VisitsAll(o, ts) == VisitsAll(o, ts[..|ts| - 1]) + Visits(o, ts[|ts| - 1])
  {
    hide Visits;
  }

  lemma OneTree<L>(o: Order<L>, t: Tree<L>)
    ensures Preorders(o, [t]) == Preorder(o, t) && Postorders(o, [t]) == Postorder(o, t)
    ensures Preorder(o, t) == if Visited(o, t) then [t.tag] + Preorders(o, t.kids) else []
  {
    assert [t][1..] == [];
  }

  // ----- what each evaluation sees -----

  /** Places in a tree as lists of child numbers: a node behind its children, and a null child or a
      skipped subtree where it stands. */
  function Places<L>(o: Order<L>, t: Tree<L>): seq<seq<nat>> {
    if !Visited(o, t) then [[]] else PlacesBelow(o, t.kids) + [[]]
  }

  function PlacesBelow<L>(o: Order<L>, ts: seq<Tree<L>>): seq<seq<nat>> {
    if ts == [] then [] else PlacesBelow(o, ts[..|ts| - 1]) + Behind(|ts| - 1, Places(o, ts[|ts| - 1]))
  }

  function Behind(i: nat, ps: seq<seq<nat>>): (r: seq<seq<nat>>)
    ensures |r| == |ps| && forall k | 0 <= k < |ps| :: r[k] == [i] + ps[k]
  {
    seq(|ps|, k requires 0 <= k < |ps| => [i] + ps[k])
  }

  /** The tags of the visited nodes from the root to a place, the place included. */
  function TagsTo<L>(o: Order<L>, t: Tree<L>, p: seq<nat>): seq<L>
    decreases |p|
  {
    if !Visited(o, t) then []
    else if p == [] || p[0] >= |t.kids| then [t.tag]
    else [t.tag] + TagsTo(o, t.kids[p[0]], p[1..])
  }

  function Flat<T>(rows: seq<seq<T>>): seq<T> {
    if rows == [] then [] else Flat(rows[..|rows| - 1]) + rows[|rows| - 1]
  }

  /** A grammar whose inherited attribute collects the tags on the way down, and whose synthesized
      one lists what every evaluation inherited. */
  function Recorder<L>(): Grammar<L, seq<L>, seq<seq<L>>> {
    Grammar((tag: L, inh: seq<L>) => inh + [tag],
            (tag: L, inh: seq<L>, rows: seq<seq<seq<L>>>) => Flat(rows) + [inh],
            (inh: seq<L>) => [inh])
  }

  function SeenAt<L>(o: Order<L>, t: Tree<L>, inh: seq<L>, p: seq<nat>): seq<L> {
    if o.pre then inh + TagsTo(o, t, p) else inh
  }

  /** Line for line, what is seen at the places. */
  ghost predicate SeenThere<L>(o: Order<L>, t: Tree<L>, inh: seq<L>, r: seq<seq<L>>, ps: seq<seq<nat>>) {
    |r| == |ps| && forall k | 0 <= k < |ps| :: r[k] == SeenAt(o, t, inh, ps[k])
  }

  /** Every evaluation, of a node or of a default, inherits what was handed down along the way from
      the root to its place, and the children's results arrive in their order. */
  lemma {:induction false} EveryPlaceInherits<L>(o: Order<L>, t: Tree<L>, inh: seq<L>)
    ensures SeenThere(o, t, inh, Synth(Recorder(), o, t, inh), Places(o, t))
    decreases t, 0
  {
    hide SynthAll, PlacesBelow;
    if Visited(o, t) {
      var own := if o.pre then inh + [t.tag] else inh;
      PlacesBelowInherit(o, t, inh, own, |t.kids|);
      assert t.kids[..|t.kids|] == t.kids;
    }
  }

  lemma {:induction false} PlacesBelowInherit<L>(o: Order<L>, t: Tree<L>, inh: seq<L>, own: seq<L>, n: nat)
    requires Visited(o, t) && n <= |t.kids| && own == if o.pre then inh + [t.tag] else inh
    ensures SeenThere(o, t, inh, Flat(SynthAll(Recorder(), o, t.kids[..n], own)), PlacesBelow(o, t.kids[..n]))
    decreases t, -1, n
  {
    hide Synth, Places, PlacesBelow, SynthAll, Recorder, Flat, SeenThere, SeenAt, Behind;
    var front := t.kids[..n];
    if n == 0 {
      NothingSeen(o, t, inh, own);
    } else {
      var kid := t.kids[n - 1];
      PlacesBelowInherit(o, t, inh, own, n - 1);
      EveryPlaceInherits(o, kid, own);
      OneMore(Recorder(), o, t.kids, n - 1, own);
      FlatSnoc(SynthAll(Recorder(), o, t.kids[..n - 1], own), Synth(Recorder(), o, kid, own));
      OneMorePlace(o, t.kids, n);
      SeenInKid(o, t, inh, own, n - 1, Synth(Recorder(), o, kid, own), Places(o, kid));
      SeenInBoth(o, t, inh, Flat(SynthAll(Recorder(), o, t.kids[..n - 1], own)), PlacesBelow(o, t.kids[..n - 1]),
                 Synth(Recorder(), o, kid, own), Behind(n - 1, Places(o, kid)));
    }
  }

  lemma NothingSeen<L>(o: Order<L>, t: Tree<L>, inh: seq<L>, own: seq<L>)
    requires t.Node?
    ensures SeenThere(o, t, inh, Flat(SynthAll(Recorder(), o, t.kids[..0], own)), PlacesBelow(o, t.kids[..0]))
  {
    assert t.kids[..0] == [];
  }

  lemma OneMorePlace<L>(o: Order<L>, ts: seq<Tree<L>>, n: nat)
    requires 0 < n <= |ts|
    ensures PlacesBelow(o, ts[..n]) == PlacesBelow(o, ts[..n - 1]) + Behind(n - 1, Places(o, ts[n - 1]))
  {
    hide Places;
    var some := ts[..n];
    assert some[..n - 1] == ts[..n - 1] && some[n - 1] == ts[n - 1];
  }

  lemma SeenInKid<L>(o: Order<L>, t: Tree<L>, inh: seq<L>, own: seq<L>, i: nat, r: seq<seq<L>>, ps: seq<seq<nat>>)
    requires Visited(o, t) && i < |t.kids| && own == if o.pre then inh + [t.tag] else inh
    requires SeenThere(o, t.kids[i], own, r, ps)
    ensures SeenThere(o, t, inh, r, Behind(i, ps))
  {
    forall k | 0 <= k < |ps| ensures SeenAt(o, t, inh, [i] + ps[k]) == SeenAt(o, t.kids[i], own, ps[k]) {
      var p := [i] + ps[k];
      assert p[1..] == ps[k];
      assert inh + ([t.tag] + TagsTo(o, t.kids[i], ps[k])) == inh + [t.tag] + TagsTo(o, t.kids[i], ps[k]);
    }
  }

  lemma SeenInBoth<L>(o: Order<L>, t: Tree<L>, inh: seq<L>, r: seq<seq<L>>, ps: seq<seq<nat>>, r': seq<seq<L>>,
                      ps': seq<seq<nat>>)
    requires SeenThere(o, t, inh, r, ps) && SeenThere(o, t, inh, r', ps')
    ensures SeenThere(o, t, inh, r + r', ps + ps')
  {
    hide SeenAt;
  }

  lemma FlatSnoc<T>(rows: seq<seq<T>>, row: seq<T>)
    ensures Flat(rows + [row]) == Flat(rows) + row
  {
    assert (rows + [row])[..|rows|] == rows;
  }
}
