/** Many traversals fused into one, and distributed over threads in chunks
    (frontend/include/AstCombinedProcessingImpl.h, AstSharedMemoryParallelProcessingImpl.h). */
module CombinedTraversal {
  import opened Traversal

  // ----- the fused attribute grammar -----

  /** Entry `i` of every row; a missing entry is a blank attribute. */
  function Column<S>(rows: seq<seq<S>>, i: nat, blank: S): (r: seq<S>)
    ensures |r| == |rows|
    ensures forall j | 0 <= j < |rows| && i < |rows[j]| :: r[j] == rows[j][i]
  {
    seq(|rows|, j requires 0 <= j < |rows| => if i < |rows[j]| then rows[j][i] else blank)
  }

  function CombinedInherited<L, I, S>(gs: seq<Grammar<L, I, S>>, tag: L, inh: seq<I>): seq<I> {
    if |inh| != |gs| then [] else seq(|gs|, i requires 0 <= i < |gs| => gs[i].evaluateInherited(tag, inh[i]))
  }

  function CombinedSynthesized<L, I, S>(gs: seq<Grammar<L, I, S>>, blank: S, tag: L, inh: seq<I>,
                                        rows: seq<seq<S>>): seq<S> {
    if |inh| != |gs| then []
    else seq(|gs|, i requires 0 <= i < |gs| => gs[i].evaluateSynthesized(tag, inh[i], Column(rows, i, blank)))
  }

  function CombinedDefault<L, I, S>(gs: seq<Grammar<L, I, S>>, inh: seq<I>): seq<S> {
    if |inh| != |gs| then [] else seq(|gs|, i requires 0 <= i < |gs| => gs[i].defaultSynthesized(inh[i]))
  }

  /** One traversal on lists of attributes; an empty list stands for the assertion that fails
      when there is not one inherited value for each traversal. */
  function Combined<L, I, S>(gs: seq<Grammar<L, I, S>>, blank: S): Grammar<L, seq<I>, seq<S>> {
    Grammar((tag: L, inh: seq<I>) => CombinedInherited(gs, tag, inh),
            (tag: L, inh: seq<I>, rows: seq<seq<S>>) => CombinedSynthesized(gs, blank, tag, inh, rows),
            (inh: seq<I>) => CombinedDefault(gs, inh))
  }

  /** The results of the traversals run one by one. */
  function Separate<L, I, S>(gs: seq<Grammar<L, I, S>>, o: Order<L>, t: Tree<L>, inh: seq<I>): seq<S>
    requires |inh| == |gs|
  {
    seq(|gs|, i requires 0 <= i < |gs| => Synth(gs[i], o, t, inh[i]))
  }

  /** Fusing changes nothing: component `i` of the fused result is traversal `i` run alone. */
  lemma {:induction false} FusedIsSeparate<L, I, S>(gs: seq<Grammar<L, I, S>>, blank: S, o: Order<L>, t: Tree<L>,
                                                    inh: seq<I>)
    requires |inh| == |gs|
    ensures Synth(Combined(gs, blank), o, t, inh) == Separate(gs, o, t, inh)
  {
    hide SynthAll;
    if Visited(o, t) {
      var own := Inherited(Combined(gs, blank), o, t.tag, inh);
      var rows := SynthAll(Combined(gs, blank), o, t.kids, own);
      forall j | 0 <= j < |t.kids| ensures rows[j] == Separate(gs, o, t.kids[j], own) {
        FusedIsSeparate(gs, blank, o, t.kids[j], own);
      }
      forall i | 0 <= i < |gs| ensures Synth(Combined(gs, blank), o, t, inh)[i] == Synth(gs[i], o, t, inh[i]) {
        assert Column(rows, i, blank) == SynthAll(gs[i], o, t.kids, own[i]);
      }
    }
  }

  // ----- the fused traversal, as it runs -----

  class SgCombinedTreeTraversal<L, I, S> {
    var traversals: seq<Grammar<L, I, S>>
    var numberOfTraversals: nat
    const blank: S

    constructor (traversals: seq<Grammar<L, I, S>>, blank: S)
      ensures this.traversals == traversals && this.blank == blank
    {
      this.traversals, this.blank, numberOfTraversals := traversals, blank, 0;
    }

    method AtTraversalStart()
      modifies this`numberOfTraversals
      ensures numberOfTraversals == |traversals|
    {
      numberOfTraversals := |traversals|;
    }

    /** The two iterators advance together. */
    method EvaluateInheritedAttribute(tag: L, inheritedValues: seq<I>) returns (result: seq<I>)
      requires |inheritedValues| == |traversals|
      ensures result == Combined(traversals, blank).evaluateInherited(tag, inheritedValues)
    {
      result := [];
      var t, i := 0, 0;
      while t != |traversals| && i != |inheritedValues|
        invariant t == i == |result| <= |traversals|
        invariant forall k | 0 <= k < i :: result[k] == traversals[k].evaluateInherited(tag, inheritedValues[k])
      {
        result := result + [traversals[t].evaluateInherited(tag, inheritedValues[i])];
        t, i := t + 1, i + 1;
      }
    }

    /** One buffer is overwritten with the children's attributes of each traversal in turn. */
    method EvaluateSynthesizedAttribute(tag: L, inheritedValues: seq<I>, synthesizedAttributes: seq<seq<S>>)
      returns (result: seq<S>)
      requires numberOfTraversals == |traversals| == |inheritedValues|
      requires forall j | 0 <= j < |synthesizedAttributes| :: |synthesizedAttributes[j]| == numberOfTraversals
      ensures result == Combined(traversals, blank).evaluateSynthesized(tag, inheritedValues, synthesizedAttributes)
    {
      hide Combined;
      var m := |synthesizedAttributes|;
      var attributesForTraversal := new S[m](_ => blank);
      result := [];
      for i := 0 to numberOfTraversals
        invariant |result| == i
        invariant forall k | 0 <= k < i ::
          result[k]
            == traversals[k].evaluateSynthesized(tag, inheritedValues[k], Column(synthesizedAttributes, k, blank))
      {
        for j := 0 to m
          invariant forall k | 0 <= k < j :: attributesForTraversal[k] == synthesizedAttributes[k][i]
        {
          attributesForTraversal[j] := synthesizedAttributes[j][i];
        }
        assert attributesForTraversal[..] == Column(synthesizedAttributes, i, blank);
        result := result + [traversals[i].evaluateSynthesized(tag, inheritedValues[i], attributesForTraversal[..])];
      }
      CombinedUnfold(traversals, blank, tag, inheritedValues, synthesizedAttributes);
      assert result == CombinedSynthesized(traversals, blank, tag, inheritedValues, synthesizedAttributes);
    }

    method DefaultSynthesizedAttribute(inheritedValues: seq<I>) returns (result: seq<S>)
      requires numberOfTraversals == |traversals| == |inheritedValues|
      ensures result == Combined(traversals, blank).defaultSynthesized(inheritedValues)
    {
      result := seq(numberOfTraversals, _ => blank);
      for i := 0 to numberOfTraversals
        invariant |result| == numberOfTraversals
        invariant forall k | 0 <= k < i :: result[k] == traversals[k].defaultSynthesized(inheritedValues[k])
      {
        result := result[i := traversals[i].defaultSynthesized(inheritedValues[i])];
      }
    }

    /** The engine on the fused attributes. */
    method Traverse(basenode: Tree<L>, inheritedValues: seq<I>, order: Order<L>) returns (result: seq<S>)
      requires |inheritedValues| == |traversals| && order.post
      modifies this`numberOfTraversals
      ensures result == Separate(traversals, order, basenode, inheritedValues)
    {
      AtTraversalStart();
      var engine := new SgTreeTraversal(Combined(traversals, blank), []);
      result := engine.Traverse(basenode, inheritedValues, order);
      FusedIsSeparate(traversals, blank, order, basenode, inheritedValues);
    }
  }

  lemma CombinedUnfold<L, I, S>(gs: seq<Grammar<L, I, S>>, blank: S, tag: L, inh: seq<I>, rows: seq<seq<S>>)
    ensures Combined(gs, blank).evaluateSynthesized(tag, inh, rows) == CombinedSynthesized(gs, blank, tag, inh, rows)
  {
  }

  // ----- chunks for threads -----

  lemma {:induction false} ChunksFit(i: nat, t: nat, n: nat)
    requires 0 < t && i <= t
    ensures i * (n / t) <= t * (n / t) == n - n % t <= n
    decreases t - i
  {
    if i < t {
      ChunksFit(i + 1, t, n);
      assert (i + 1) * (n / t) == i * (n / t) + n / t;
    }
  }

  /** Where chunk `i` begins. */
  function Begin(chunk: nat, i: nat): nat { i * chunk }

  lemma BeginNext(chunk: nat, i: nat, t: nat, n: nat)
    requires 0 < t && chunk == n / t && i < t
    ensures Begin(chunk, 0) == 0 && Begin(chunk, i + 1) == Begin(chunk, i) + chunk <= n
    ensures Begin(chunk, t) == Kept(n, t) <= n
  {
    ChunksFit(i + 1, t, n);
  }

  lemma SeparateSlice<L, I, S>(gs: seq<Grammar<L, I, S>>, o: Order<L>, t: Tree<L>, inh: seq<I>, n: nat, a: nat, b: nat)
    requires a <= b <= n <= |gs| && n <= |inh|
    ensures Separate(gs[a..b], o, t, inh[a..b]) == Separate(gs[..n], o, t, inh[..n])[a..b]
  {
    hide Synth;
  }

  /** The traversals are cut into one chunk for each thread, and the results of the threads are
      put behind one another: the result lists what the first t * floor(N / t) traversals compute
      alone. The threads share nothing, so each is run to its end here. */
  method TraverseInParallel<L, I, S>(traversals: seq<Grammar<L, I, S>>, blank: S, basenode: Tree<L>,
                                     inheritedValues: seq<I>,
                                     numberOfThreads: nat, order: Order<L>)
    returns (flatFinalResults: seq<S>)
    requires 0 < numberOfThreads && order.post
    requires |traversals| <= |inheritedValues|
    ensures flatFinalResults
      == Separate(traversals, order, basenode, inheritedValues[..|traversals|])[..Kept(|traversals|, numberOfThreads)]
  {
    hide Synth, Separate, Begin, Kept;
    var n := |traversals|;
    var chunk := n / numberOfThreads;
    BeginNext(chunk, 0, numberOfThreads, n);
    ghost var all := Separate(traversals, order, basenode, inheritedValues[..n]);
    assert traversals[..n] == traversals;
    SeparateLength(traversals, order, basenode, inheritedValues[..n]);
    var parallelTraversals: seq<seq<Grammar<L, I, S>>>, parallelInheritedValues: seq<seq<I>> := [], [];
    var begin := 0;
    for i := 0 to numberOfThreads
      invariant |parallelTraversals| == |parallelInheritedValues| == i
      invariant begin == Begin(chunk, i) <= n
      invariant forall k | 0 <= k < i ::
        IsChunk(traversals, inheritedValues, chunk, k, parallelTraversals[k], parallelInheritedValues[k])
    {
      BeginNext(chunk, i, numberOfThreads, n);
      var end := begin + chunk;
      if end > n {
        end := n;
      }
      parallelTraversals := parallelTraversals + [traversals[begin..end]];
      parallelInheritedValues := parallelInheritedValues + [inheritedValues[begin..end]];
      begin := end;
    }
    var finalResults: seq<seq<S>> := [];
    for i := 0 to numberOfThreads
      invariant |finalResults| == i
      invariant forall k | 0 <= k < i :: IsSlice(all, chunk, k, finalResults[k])
    {
      var thread := new SgCombinedTreeTraversal(parallelTraversals[i], blank);
      BeginNext(chunk, i, numberOfThreads, n);
      SeparateSlice(traversals, order, basenode, inheritedValues, n, Begin(chunk, i), Begin(chunk, i + 1));
      var r := thread.Traverse(basenode, parallelInheritedValues[i], order);
      finalResults := finalResults + [r];
    }
    flatFinalResults := [];
    for i := 0 to numberOfThreads
      invariant 0 <= Begin(chunk, i) <= n && flatFinalResults == all[..Begin(chunk, i)]
    {
      BeginNext(chunk, i, numberOfThreads, n);
      assert all[..Begin(chunk, i)] + all[Begin(chunk, i)..Begin(chunk, i + 1)] == all[..Begin(chunk, i + 1)];
      flatFinalResults := flatFinalResults + finalResults[i];
    }
  }

  lemma SeparateLength<L, I, S>(gs: seq<Grammar<L, I, S>>, o: Order<L>, t: Tree<L>, inh: seq<I>)
    requires |inh| == |gs|
    ensures |Separate(gs, o, t, inh)| == |gs|
  {
  }

  ghost predicate IsChunk<A, B>(xs: seq<A>, ys: seq<B>, chunk: nat, k: nat, a: seq<A>, b: seq<B>) {
    && 0 <= Begin(chunk, k) <= Begin(chunk, k + 1) <= |xs| && Begin(chunk, k + 1) <= |ys|
    && a == xs[Begin(chunk, k)..Begin(chunk, k + 1)] && b == ys[Begin(chunk, k)..Begin(chunk, k + 1)]
  }

  ghost predicate IsSlice<A>(xs: seq<A>, chunk: nat, k: nat, a: seq<A>) {
    0 <= Begin(chunk, k) <= Begin(chunk, k + 1) <= |xs| && a == xs[Begin(chunk, k)..Begin(chunk, k + 1)]
  }

  /** How many of `n` results `t` threads deliver. */
  function Kept(n: nat, t: nat): (r: nat)
    requires 0 < t
    ensures r <= n
  {
    ChunksFit(t, t, n);
    t * (n / t)
  }

  /** The parallel result is complete exactly when the number of threads divides the number of
      traversals; otherwise the last n mod t results are lost. */
  lemma CompleteIffDivides<S>(all: seq<S>, t: nat)
    requires 0 < t
    ensures all[..Kept(|all|, t)] == all <==> |all| % t == 0
    ensures |all[..Kept(|all|, t)]| == |all| - |all| % t
  {
    ChunksFit(t, t, |all|);
    if Kept(|all|, t) == |all| { assert all[..|all|] == all; }
  }
}
