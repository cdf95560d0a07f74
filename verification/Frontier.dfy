/** The dominance-frontier pass over the graph object. */
module Frontier {
  import opened Graphs
  import opened DepthFirst
  import opened DominatorTree
  import opened PostOrder
  import opened ControlFlowGraph
  import opened FrontierSpec
  import opened DomFrontier

  /** `join` is in the frontier array of `node`. */
  datatype FrontierPair = FrontierPair(node: nat, join: nat)

  /** The frontier arrays hold exactly the pairs (x, b) of `pairs`, without
      duplicates, and their two counters agree with their lengths. */
  ghost predicate FrontierIs(lists: seq<NodeList>, pairs: set<FrontierPair>) {
    forall x: nat :: x < |lists| ==> SetIs(lists[x], x, pairs)
  }

  ghost predicate SetIs(list: NodeList, x: nat, pairs: set<FrontierPair>) {
    && list.Full() && Distinct(list.items)
    && forall b: nat :: b in list.items <==> FrontierPair(x, b) in pairs
  }

  method SetContains(b: nat, set_: NodeList) returns (found: bool)
    requires set_.Full()
    ensures found <==> b in set_.items
  {
    for i := 0 to set_.nb
      invariant forall k :: 0 <= k < i ==> set_.items[k] != b
    {
      if b == set_.items[i] {
        return true;
      }
    }
    return false;
  }

  /** Adds `b` to the frontier array of `runner` unless it is there: grows the array
      by one slot of unknown content, then fills the slot. */
  method AddToSet(cfg: CFG, b: nat, runner: nat, ghost pairs: set<FrontierPair>)
    requires cfg.Valid() && runner < cfg.nbNodes && FrontierIs(cfg.frontier[..], pairs)
    modifies cfg.frontier
    ensures FrontierIs(cfg.frontier[..], pairs + {FrontierPair(runner, b)})
  {
    var set_ := cfg.frontier[runner];
    assert SetIs(set_, runner, pairs);
    var found := SetContains(b, set_);
    if found {
      assert pairs + {FrontierPair(runner, b)} == pairs;
      return;
    }
    var slot: nat := *;
    set_ := NodeList(set_.items + [slot], set_.nb + 1, set_.idx);
    set_ := NodeList(set_.items[set_.idx := b], set_.nb, set_.idx + 1);
    assert set_.items == cfg.frontier[runner].items + [b];
    ghost var before := cfg.frontier[..];
    cfg.frontier[runner] := set_;
    forall x: nat | x < cfg.nbNodes
      ensures SetIs(cfg.frontier[x], x, pairs + {FrontierPair(runner, b)})
    {
      assert SetIs(before[x], x, pairs);
    }
  }

  /** All pairs (x, b) for the `nodes` x. */
  ghost function PairsOf(nodes: set<nat>, b: nat): (pairs: set<FrontierPair>)
    ensures forall x: nat, c: nat :: FrontierPair(x, c) in pairs <==> c == b && x in nodes
  {
    set x | x in nodes :: FrontierPair(x, b)
  }

  lemma PairsStep(pairs: set<FrontierPair>, nodes: set<nat>, x: nat, b: nat)
    ensures pairs + PairsOf(nodes, b) + {FrontierPair(x, b)} == pairs + PairsOf(nodes + {x}, b)
  {
  }

  /** The runner loop for node `b` from its predecessor `p`. */
  method Run(cfg: CFG, b: nat, p: nat, ghost g: Graph, ghost num: seq<int>, ghost dom: seq<int>,
             ghost pairs: set<FrontierPair>)
    requires cfg.Valid() && dom == cfg.dominator[..] && b < cfg.nbNodes && p < cfg.nbNodes
    requires Tree(g, num, dom) && Complete(dom) && dom[b] in Chain(g, num, dom, p)
    requires FrontierIs(cfg.frontier[..], pairs)
    modifies cfg.frontier
    ensures FrontierIs(cfg.frontier[..], pairs + PairsOf(Runners(g, num, dom, p, b), b))
  {
    var runner: nat := p;
    ghost var passed: set<nat> := {};
    assert pairs + PairsOf({}, b) == pairs;
    while runner != cfg.dominator[b]
      invariant runner < |dom| && dom[b] in Chain(g, num, dom, runner)
      invariant passed == Chain(g, num, dom, p) - Chain(g, num, dom, runner)
      invariant Chain(g, num, dom, runner) <= Chain(g, num, dom, p)
      invariant FrontierIs(cfg.frontier[..], pairs + PairsOf(passed, b))
      decreases |num| - num[runner]
    {
      AddToSet(cfg, b, runner, pairs + PairsOf(passed, b));
      RunnerStep(g, num, dom, runner, dom[b]);
      PairsStep(pairs, passed, runner, b);
      passed := passed + {runner};
      runner := cfg.dominator[runner];
    }
  }

  /** The runners of all predecessors. */
  ghost function RunnerSets(g: Graph, num: seq<int>, dom: seq<int>, preds: seq<nat>, b: nat): (sets: seq<set<nat>>)
    requires Tree(g, num, dom) && Complete(dom) && b < |dom|
    requires forall i :: 0 <= i < |preds| ==> preds[i] < |dom|
    ensures |sets| == |preds|
    ensures forall i :: 0 <= i < |preds| ==> sets[i] == Runners(g, num, dom, preds[i], b)
  {
    seq(|preds|, i requires 0 <= i < |preds| => Runners(g, num, dom, preds[i], b))
  }

  /** The pairs collected for `b` from the first `j` runners. */
  ghost function PassedPairs(sets: seq<set<nat>>, j: nat, b: nat): (pairs: set<FrontierPair>)
    requires j <= |sets|
  {
    if j == 0 then {} else PassedPairs(sets, j - 1, b) + PairsOf(sets[j - 1], b)
  }

  lemma {:induction false} PassedPairsAre(sets: seq<set<nat>>, j: nat, b: nat, x: nat, c: nat)
    requires j <= |sets|
    ensures FrontierPair(x, c) in PassedPairs(sets, j, b) <==> c == b && exists i :: 0 <= i < j && x in sets[i]
  {
    if j == 0 {
    } else {
      PassedPairsAre(sets, j - 1, b, x, c);
    }
  }

  /** All runners for `b` end at its pointer. */
  ghost predicate RunnersEnd(g: Graph, num: seq<int>, dom: seq<int>, preds: seq<nat>, b: nat)
    requires Tree(g, num, dom) && Complete(dom) && b < |dom|
  {
    forall i :: 0 <= i < |preds| ==> preds[i] < |dom| && dom[b] in Chain(g, num, dom, preds[i])
  }

  lemma AllRunnersEnd(g: Graph, num: seq<int>, dom: seq<int>, preds: seq<nat>, b: nat)
    requires Exact(g, num, dom) && ListsPredecessors(g, preds, b) && b < |dom|
    requires forall i :: 0 <= i < |preds| ==> preds[i] < |dom|
    ensures RunnersEnd(g, num, dom, preds, b)
  {
    forall i | 0 <= i < |preds|
      ensures dom[b] in Chain(g, num, dom, preds[i])
    {
      assert preds[i] in preds;
      RunnerEnds(g, num, dom, preds[i], b);
    }
  }

  lemma {:induction false} PassedPairsStep(pairs: set<FrontierPair>, sets: seq<set<nat>>, i: nat, b: nat)
    requires i < |sets|
    ensures pairs + PassedPairs(sets, i, b) + PairsOf(sets[i], b) == pairs + PassedPairs(sets, i + 1, b)
  {
  }

  lemma {:induction false} PassedPairsNone(pairs: set<FrontierPair>, sets: seq<set<nat>>, b: nat)
    ensures pairs + PassedPairs(sets, 0, b) == pairs
  {
  }

  /** The inner loop over the predecessors of `b`. */
  method VisitJoin(cfg: CFG, b: nat, ghost g: Graph, ghost num: seq<int>, ghost dom: seq<int>,
                   ghost sets: seq<set<nat>>, ghost pairs: set<FrontierPair>)
    requires cfg.Valid() && dom == cfg.dominator[..] && b < cfg.nbNodes && cfg.predecessors[b].Full()
    requires Tree(g, num, dom) && Complete(dom) && RunnersEnd(g, num, dom, cfg.predecessors[b].items, b)
    requires sets == RunnerSets(g, num, dom, cfg.predecessors[b].items, b)
    requires FrontierIs(cfg.frontier[..], pairs)
    modifies cfg.frontier
    ensures FrontierIs(cfg.frontier[..], pairs + PassedPairs(sets, |sets|, b))
  {
    var preds := cfg.predecessors[b];
    PassedPairsNone(pairs, sets, b);
    for i := 0 to preds.nb
      invariant cfg.dominator[..] == dom
      invariant FrontierIs(cfg.frontier[..], pairs + PassedPairs(sets, i, b))
    {
      PassedPairsStep(pairs, sets, i, b);
      Run(cfg, b, preds.items[i], g, num, dom, pairs + PassedPairs(sets, i, b));
    }
  }

  /** `pairs` are the pairs that the loops collect for the first `n` nodes. */
  ghost predicate CollectedPairs(g: Graph, num: seq<int>, dom: seq<int>, preds: seq<seq<nat>>, n: nat,
        pairs: set<FrontierPair>)
    requires Tree(g, num, dom) && Complete(dom) && n <= |dom| == |preds| && InRange(preds, |dom|)
  {
    forall x: nat, b: nat :: FrontierPair(x, b) in pairs <==> b < n && Collected(g, num, dom, preds, b, x)
  }

  lemma {:induction false} CollectedStep(g: Graph, num: seq<int>, dom: seq<int>, preds: seq<seq<nat>>, n: nat,
                                        pairs: set<FrontierPair>)
    requires Tree(g, num, dom) && Complete(dom) && n < |dom| == |preds| && InRange(preds, |dom|)
    requires CollectedPairs(g, num, dom, preds, n, pairs)
    ensures var sets := RunnerSets(g, num, dom, preds[n], n);
            |preds[n]| >= 2 ==> CollectedPairs(g, num, dom, preds, n + 1, pairs + PassedPairs(sets, |sets|, n))
    ensures |preds[n]| < 2 ==> CollectedPairs(g, num, dom, preds, n + 1, pairs)
  {
    var sets := RunnerSets(g, num, dom, preds[n], n);
    forall x: nat, b: nat
      ensures FrontierPair(x, b) in PassedPairs(sets, |sets|, n)
              <==> b == n && Passed(g, num, dom, preds[n], |preds[n]|, n, x)
    {
      PassedPairsAre(sets, |sets|, n, x, b);
      PassedInSets(g, num, dom, preds[n], n, x);
    }
  }

  lemma PassedInSets(g: Graph, num: seq<int>, dom: seq<int>, preds: seq<nat>, b: nat, x: nat)
    requires Tree(g, num, dom) && Complete(dom) && b < |dom|
    requires forall i :: 0 <= i < |preds| ==> preds[i] < |dom|
    ensures var sets := RunnerSets(g, num, dom, preds, b);
            Passed(g, num, dom, preds, |preds|, b, x) <==> exists i :: 0 <= i < |sets| && x in sets[i]
  {
    var sets := RunnerSets(g, num, dom, preds, b);
    if Passed(g, num, dom, preds, |preds|, b, x) {
      var i :| 0 <= i < |preds| && x in Runners(g, num, dom, preds[i], b);
      assert x in sets[i];
    }
    if i :| 0 <= i < |sets| && x in sets[i] {
      assert x in Runners(g, num, dom, preds[i], b);
    }
  }

  /** The loops over all nodes, their predecessors and the runners. */
  method CollectFrontiers(cfg: CFG, ghost g: Graph, ghost num: seq<int>, ghost dom: seq<int>)
    returns (ghost pairs: set<FrontierPair>)
    requires cfg.Linked(g) && dom == cfg.dominator[..] && Exact(g, num, dom)
    requires forall v :: 0 <= v < cfg.nbNodes ==> cfg.frontier[v] == EMPTY_LIST
    modifies cfg.frontier
    ensures FrontierIs(cfg.frontier[..], pairs)
    ensures CollectedPairs(g, num, dom, Items(cfg.predecessors[..]), cfg.nbNodes, pairs)
  {
    ghost var preds := Items(cfg.predecessors[..]);
    InverseListsEdges(g, preds);
    pairs := {};
    for nodeIdx := 0 to cfg.nbNodes
      modifies cfg.frontier
      invariant FrontierIs(cfg.frontier[..], pairs)
      invariant CollectedPairs(g, num, dom, preds, nodeIdx, pairs)
    {
      CollectedStep(g, num, dom, preds, nodeIdx, pairs);
      if cfg.predecessors[nodeIdx].nb >= 2 {
        assert preds[nodeIdx] == cfg.predecessors[nodeIdx].items;
        assert ListsPredecessors(g, preds[nodeIdx], nodeIdx);
        AllRunnersEnd(g, num, dom, preds[nodeIdx], nodeIdx);
        assert cfg.dominator[..] == dom;
        ghost var sets := RunnerSets(g, num, dom, preds[nodeIdx], nodeIdx);
        VisitJoin(cfg, nodeIdx, g, num, dom, sets, pairs);
        pairs := pairs + PassedPairs(sets, |sets|, nodeIdx);
      }
    }
  }

  /** What the frontier arrays hold at the end: `b` is in the array of `x` exactly if
      the definition says so, except that the header is never in its own array, and
      in nobody's if it has a single predecessor entry. */
  ghost predicate FrontierArrays(g: Graph, preds: seq<NodeList>, lists: seq<NodeList>) {
    && |preds| == |lists| == |g.succs| && g.header < |preds|
    && (forall x :: 0 <= x < |lists| ==> lists[x].Full() && Distinct(lists[x].items))
    && InRange(Items(lists), |lists|)
    && (forall x: nat, b: nat :: x < |lists| && b < |lists| && b != g.header ==>
          (b in lists[x].items <==> InFrontier(g, x, b)))
    && forall x: nat :: x < |lists| ==>
         (g.header in lists[x].items <==> preds[g.header].nb >= 2 && x != g.header && InFrontier(g, x, g.header))
  }

  lemma CollectedArrays(g: Graph, num: seq<int>, dom: seq<int>, preds: seq<NodeList>, lists: seq<NodeList>,
                        pairs: set<FrontierPair>)
    requires Exact(g, num, dom) && AllReachable(g) && |lists| == |preds| == |dom|
    requires AllFull(preds) && InRange(Items(preds), |dom|) && Inverse(g.succs, Items(preds))
    requires FrontierIs(lists, pairs) && CollectedPairs(g, num, dom, Items(preds), |dom|, pairs)
    ensures FrontierArrays(g, preds, lists)
  {
    InverseListsEdges(g, Items(preds));
    assert PredecessorsOf(g, Items(preds));
    forall x: nat, b: nat | x < |lists| && b < |lists| && b != g.header
      ensures b in lists[x].items <==> InFrontier(g, x, b)
    {
      assert SetIs(lists[x], x, pairs);
      assert Reachable(g, b);
      CollectedIsFrontier(g, num, dom, Items(preds), b, x);
    }
    forall x: nat | x < |lists|
      ensures g.header in lists[x].items
              <==> preds[g.header].nb >= 2 && x != g.header && InFrontier(g, x, g.header)
    {
      assert SetIs(lists[x], x, pairs);
      CollectedAtHeader(g, num, dom, Items(preds), x);
    }
    forall x: nat, i | x < |lists| && 0 <= i < |lists[x].items|
      ensures lists[x].items[i] < |lists|
    {
      assert SetIs(lists[x], x, pairs);
      assert lists[x].items[i] in lists[x].items;
      assert FrontierPair(x, lists[x].items[i]) in pairs;
    }
    assert forall x :: 0 <= x < |lists| ==> SetIs(lists[x], x, pairs);
  }

  ghost predicate AllFrontiersExact(g: Graph, lists: seq<NodeList>) {
    forall x: nat, b: nat :: x < |lists| && b < |lists| ==> (b in lists[x].items <==> InFrontier(g, x, b))
  }

  /** The computed arrays are the textbook frontiers of all nodes if and only if the
      header has no predecessor. */
  lemma FrontiersExactIff(g: Graph, preds: seq<NodeList>, lists: seq<NodeList>)
    requires WellFormed(g) && AllReachable(g) && FrontierArrays(g, preds, lists)
    requires AllFull(preds) && InRange(Items(preds), |preds|) && Inverse(g.succs, Items(preds))
    ensures AllFrontiersExact(g, lists) <==> preds[g.header].nb == 0
  {
    InverseListsEdges(g, Items(preds));
    var into := preds[g.header].items;
    assert ListsPredecessors(g, Items(preds)[g.header], g.header);
    if into == [] {
      forall x: nat | x < |lists|
        ensures !InFrontier(g, x, g.header)
      {
        assert forall p: nat :: p !in into ==> !Edge(g, p, g.header);
      }
    } else {
      var p := into[0];
      assert p in into && Edge(g, p, g.header);
      forall q | PathTo(g, q, p)
        ensures g.header in q
      {
        assert q[0] == g.header;
      }
      assert DominatesPredecessor(g, g.header, g.header);
      assert g.header !in lists[g.header].items;
    }
  }

  /** Dominators, then dominance frontiers. */
  method ComputeDominanceFrontier(cfg: CFG, ghost g: Graph)
    returns (ghost passes: nat, ghost calls: seq<Arc>)
    requires cfg.Linked(g) && AllReachable(g)
    requires AllFalse(cfg.visited[..]) && AllFalse(cfg.processed[..])
    requires forall v :: 0 <= v < cfg.nbNodes ==> cfg.dominator[v] == NULL && cfg.frontier[v] == EMPTY_LIST
    modifies cfg.visited, cfg.number, cfg.dominator, cfg.processed, cfg.frontier
    ensures PostOrderNumbers(g, cfg.number[..]) && Exact(g, cfg.number[..], cfg.dominator[..])
    ensures passes <= cfg.nbNodes + 1 && (Acyclic(g) ==> passes <= 2)
    ensures calls == ExploreAll(g).tree
    ensures FrontierArrays(g, cfg.predecessors[..], cfg.frontier[..])
  {
    passes, calls := ComputeIdom(cfg, g);
    ghost var num, dom := cfg.number[..], cfg.dominator[..];
    ghost var pairs := CollectFrontiers(cfg, g, num, dom);
    CollectedArrays(g, num, dom, cfg.predecessors[..], cfg.frontier[..], pairs);
    assert cfg.number[..] == num && cfg.dominator[..] == dom;
  }
}
