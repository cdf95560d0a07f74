/** Dominance frontiers on values: the textbook definition, what the runner loop
    collects, and exactly when the two agree. */
module FrontierSpec {
  import opened Graphs
  import opened DominatorTree
  import opened ControlFlowGraph

  /** The definition of Cytron et al.: `x` dominates a predecessor of `b` but does
      not strictly dominate `b`. */
  ghost predicate InFrontier(g: Graph, x: nat, b: nat) {
    DominatesPredecessor(g, x, b) && !StrictlyDominates(g, x, b)
  }

  ghost predicate DominatesPredecessor(g: Graph, x: nat, b: nat) {
    exists p: nat :: Edge(g, p, b) && Dominates(g, x, p)
  }

  /** The nodes that a runner passes on its way from `p` to the pointer of `b`. */
  ghost function Runners(g: Graph, num: seq<int>, dom: seq<int>, p: nat, b: nat): set<nat>
    requires Tree(g, num, dom) && Complete(dom) && p < |dom| && b < |dom|
  {
    Chain(g, num, dom, p) - Chain(g, num, dom, dom[b])
  }

  /** One of the runners started from the first `j` predecessors passes `x`. */
  ghost predicate Passed(g: Graph, num: seq<int>, dom: seq<int>, preds: seq<nat>, j: nat, b: nat, x: nat)
    requires Tree(g, num, dom) && Complete(dom) && b < |dom|
    requires j <= |preds| && forall i :: 0 <= i < |preds| ==> preds[i] < |dom|
  {
    exists i :: 0 <= i < j && x in Runners(g, num, dom, preds[i], b)
  }

  /** The loops collect `b` for `x`: `b` has two or more predecessor entries, and a
      runner from one of them passes `x`. */
  ghost predicate Collected(g: Graph, num: seq<int>, dom: seq<int>, preds: seq<seq<nat>>, b: nat, x: nat)
    requires Tree(g, num, dom) && Complete(dom) && b < |dom| == |preds|
    requires forall i :: 0 <= i < |preds[b]| ==> preds[b][i] < |dom|
  {
    |preds[b]| >= 2 && Passed(g, num, dom, preds[b], |preds[b]|, b, x)
  }

  /** The pointer of `b` is on the chain of each predecessor: the runner gets there. */
  lemma {:induction false} RunnerEnds(g: Graph, num: seq<int>, dom: seq<int>, p: nat, b: nat)
    requires Exact(g, num, dom) && Edge(g, p, b)
    ensures dom[b] in Chain(g, num, dom, p)
  {
    if b != g.header {
      StrictDominatorOfPredecessor(g, dom[b], p, b);
    }
  }

  /** One step of the runner. */
  lemma {:induction false} RunnerStep(g: Graph, num: seq<int>, dom: seq<int>, runner: nat, target: nat)
    requires Tree(g, num, dom) && Complete(dom) && runner < |dom|
    requires target in Chain(g, num, dom, runner) && runner != target
    ensures runner != g.header && 0 <= dom[runner] < |dom| && num[dom[runner]] > num[runner]
    ensures target in Chain(g, num, dom, dom[runner])
    ensures Chain(g, num, dom, dom[runner]) == Chain(g, num, dom, runner) - {runner}
  {
  }

  ghost predicate PredecessorsOf(g: Graph, preds: seq<seq<nat>>) {
    && |preds| == |g.succs| && InRange(preds, |preds|)
    && forall b: nat :: b < |preds| ==> ListsPredecessors(g, preds[b], b)
  }

  /** A runner passes exactly the dominators of the predecessors that are not on the
      chain of the pointer. */
  lemma {:induction false} PassedDominators(g: Graph, num: seq<int>, dom: seq<int>, preds: seq<nat>, b: nat, x: nat)
    requires Exact(g, num, dom) && ListsPredecessors(g, preds, b) && b < |dom|
    requires forall i :: 0 <= i < |preds| ==> preds[i] < |dom|
    ensures Passed(g, num, dom, preds, |preds|, b, x)
            <==> DominatesPredecessor(g, x, b) && x !in Chain(g, num, dom, dom[b])
  {
  }

  /** On every node but the entry the loops compute the textbook frontier; skipping
      nodes with a single predecessor entry loses nothing. */
  lemma CollectedIsFrontier(g: Graph, num: seq<int>, dom: seq<int>, preds: seq<seq<nat>>, b: nat, x: nat)
    requires Exact(g, num, dom) && PredecessorsOf(g, preds) && b < |dom| && b != g.header && Reachable(g, b)
    ensures Collected(g, num, dom, preds, b, x) <==> InFrontier(g, x, b)
  {
    assert ListsPredecessors(g, preds[b], b);
    PassedDominators(g, num, dom, preds[b], b, x);
    StrictDominatorsAreChain(g, num, dom, b, x);
    if InFrontier(g, x, b) && |preds[b]| < 2 {
      SinglePredecessor(g, preds[b], b, x);
    }
  }

  lemma {:induction false} StrictDominatorsAreChain(g: Graph, num: seq<int>, dom: seq<int>, b: nat, x: nat)
    requires Exact(g, num, dom) && b < |dom| && b != g.header
    ensures x in Chain(g, num, dom, dom[b]) <==> StrictlyDominates(g, x, b)
  {
  }

  /** With fewer than two predecessor entries, whatever dominates a predecessor of `b`
      strictly dominates `b`. */
  lemma SinglePredecessor(g: Graph, preds: seq<nat>, b: nat, x: nat)
    requires ListsPredecessors(g, preds, b) && |preds| < 2 && b != g.header && Reachable(g, b)
    requires DominatesPredecessor(g, x, b)
    ensures StrictlyDominates(g, x, b)
  {
    var p: nat :| Edge(g, p, b) && Dominates(g, x, p);
    assert p in preds;
    forall q | PathTo(g, q, b)
      ensures |q| > 1 && q[|q| - 2] == p && PathTo(g, q[..|q| - 1], p)
    {
      assert Edge(g, q[|q| - 2], q[|q| - 2 + 1]);
      assert q[|q| - 2] in preds;
      PathPrefix(g, q, g.header, b, |q| - 2);
    }
    forall q | PathTo(g, q, b)
      ensures x in q && p in q
    {
      assert x in q[..|q| - 1];
    }
    if x == b {
      DominatesAntisymmetric(g, p, b);
      var q :| PathTo(g, q, b);
      var r := Shortcut(g, q, g.header, b);
      assert PathTo(g, r, b);
    }
  }

  /** The entry is collected only by others, and only with two predecessor entries. */
  lemma CollectedAtHeader(g: Graph, num: seq<int>, dom: seq<int>, preds: seq<seq<nat>>, x: nat)
    requires Exact(g, num, dom) && PredecessorsOf(g, preds)
    ensures Collected(g, num, dom, preds, g.header, x)
            <==> |preds[g.header]| >= 2 && x != g.header && InFrontier(g, x, g.header)
  {
    assert ListsPredecessors(g, preds[g.header], g.header);
    PassedDominators(g, num, dom, preds[g.header], g.header, x);
    assert Chain(g, num, dom, dom[g.header]) == {g.header};
    HeaderDominators(g, x);
  }
}
