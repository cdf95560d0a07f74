/** Numbering, immediate dominators and dominance frontiers of a control-flow graph,
    computed in place on the graph object. */
module DomFrontier {
  import opened Graphs
  import opened DepthFirst
  import opened Search
  import opened DominatorTree
  import opened PostOrder
  import opened ControlFlowGraph

  // ---------------------------------------------------- depth-first search

  /** An output buffer of nodes with the position of its next free slot. */
  class List {
    const nodes: array<int>
    var index: nat

    constructor (capacity: nat)
      ensures fresh(nodes) && nodes.Length == capacity && index == 0
    {
      nodes := new int[capacity];
      index := 0;
    }
  }

  ghost function Children(tree: seq<Arc>): (r: seq<int>)
    ensures |r| == |tree|
    ensures forall k :: 0 <= k < |tree| ==> r[k] == tree[k].target
  {
    seq(|tree|, k requires 0 <= k < |tree| => tree[k].target)
  }

  /** The children of `tree` are numbered in order, starting with `base`. */
  ghost predicate Numbered(num: seq<int>, tree: seq<Arc>, base: nat) {
    forall k :: 0 <= k < |tree| ==> tree[k].target < |num| && num[tree[k].target] == base + k
  }

  /** The effect of one search on the visited flags, the numbers and the output:
      exactly the nodes of the search tree are visited, numbered by the position at
      which they are output, and no other number changes. */
  ghost predicate Searched(g: Graph, node: nat, vis0: seq<bool>, vis1: seq<bool>,
                           num0: seq<int>, num1: seq<int>, out0: seq<int>, out1: seq<int>)
    requires WellFormed(g) && node < |g.succs|
    requires |vis0| == |vis1| == |num0| == |num1| == |g.succs|
    requires VisitedSet(vis0) <= Nodes(g)
  {
    var walk := SearchTree(g, node, VisitedSet(vis0));
    && VisitedSet(vis1) == walk.seen
    && out1 == out0 + Children(walk.tree)
    && Numbered(num1, walk.tree, |out0|)
    && forall u: nat :: u < |num0| && (vis0[u] || u == node || !vis1[u]) ==> num1[u] == num0[u]
  }

  /** Numbering the finished successor after its subtree continues the numbering. */
  lemma NumberedReturn(g: Graph, node: nat, w: nat, done: seq<Arc>, base: nat,
                       vis: seq<bool>, vis1: seq<bool>, num: seq<int>, num1: seq<int>, out: seq<int>, out1: seq<int>)
    requires WellFormed(g) && w < |g.succs| == |vis| == |vis1| == |num| == |num1|
    requires VisitedSet(vis) <= Nodes(g) && !vis[w]
    requires forall k :: 0 <= k < |done| ==> done[k].target < |vis| && vis[done[k].target]
    requires Numbered(num, done, base) && |out| == base + |done|
    requires Searched(g, w, vis, vis1, num, num1, out, out1)
    ensures Numbered(num1[w := |out1|], done + SearchTree(g, w, VisitedSet(vis)).tree + [Arc(node, w)], base)
  {
    var below := SearchTree(g, w, VisitedSet(vis));
    var done1 := done + below.tree + [Arc(node, w)];
    var num2 := num1[w := |out1|];
    ExploreTree(g, w, 0, VisitedSet(vis) + {w});
    forall k | 0 <= k < |done1|
      ensures done1[k].target < |num2| && num2[done1[k].target] == base + k
    {
      if k < |done| {
        assert done1[k] == done[k];
      } else if k < |done| + |below.tree| {
        var m := k - |done|;
        assert done1[k] == below.tree[m];
        assert below.tree[m].target !in VisitedSet(vis) + {w};
      }
    }
  }

  /** Nodes that were visited at the start, and `node`, stay visited and keep their
      numbers; so do nodes that are not visited yet. */
  ghost predicate Kept(node: nat, vis0: seq<bool>, num0: seq<int>, vis: seq<bool>, num: seq<int>) {
    && |vis0| == |num0| == |vis| == |num|
    && (forall u: nat :: u < |vis0| && (vis0[u] || u == node) ==> vis[u])
    && forall u: nat :: u < |vis0| && (vis0[u] || u == node || !vis[u]) ==> num[u] == num0[u]
  }

  /** The loop invariant of the search from `node`, before its `i`-th successor. */
  ghost predicate Searching(g: Graph, node: nat, i: nat, walk: Walk, done: seq<Arc>,
                            vis0: seq<bool>, num0: seq<int>, out0: seq<int>, vis: seq<bool>, num: seq<int>,
                            out: seq<int>) {
    && Progress(g, node, i, walk, vis, done)
    && Kept(node, vis0, num0, vis, num)
    && Numbered(num, done, |out0|)
    && out == out0 + Children(done)
  }

  lemma SearchingReturn(g: Graph, node: nat, i: nat, walk: Walk, done: seq<Arc>,
                        vis0: seq<bool>, num0: seq<int>, out0: seq<int>, vis: seq<bool>, num: seq<int>, out: seq<int>,
                        vis1: seq<bool>, num1: seq<int>, out1: seq<int>)
    requires Searching(g, node, i, walk, done, vis0, num0, out0, vis, num, out)
    requires i < |g.succs[node]| && !vis[g.succs[node][i]] && |vis1| == |num1| == |vis|
    requires Searched(g, g.succs[node][i], vis, vis1, num, num1, out, out1)
    ensures var w := g.succs[node][i];
            Searching(g, node, i + 1, walk, done + SearchTree(g, w, VisitedSet(vis)).tree + [Arc(node, w)],
                      vis0, num0, out0, vis1, num1[w := |out1|], out1 + [w])
  {
    var w := g.succs[node][i];
    ProgressReturn(g, node, i, walk, vis, done, vis1);
    NumberedReturn(g, node, w, done, |out0|, vis, vis1, num, num1, out, out1);
    KeptReturn(g, node, w, vis0, num0, vis, num, vis1, num1, out, out1);
  }

  lemma KeptReturn(g: Graph, node: nat, w: nat, vis0: seq<bool>, num0: seq<int>, vis: seq<bool>, num: seq<int>,
                   vis1: seq<bool>, num1: seq<int>, out: seq<int>, out1: seq<int>)
    requires Kept(node, vis0, num0, vis, num) && |vis1| == |num1| == |vis| == |g.succs| && node < |vis|
    requires WellFormed(g) && w < |g.succs| && VisitedSet(vis) <= Nodes(g) && !vis[w]
    requires Searched(g, w, vis, vis1, num, num1, out, out1)
    ensures Kept(node, vis0, num0, vis1, num1[w := |out1|])
  {
    assert w in VisitedSet(vis1);
    forall u: nat | u < |vis| && vis[u]
      ensures vis1[u] && num1[u] == num[u]
    {
      assert u in VisitedSet(vis);
      assert u in VisitedSet(vis1);
    }
  }

  lemma SearchingEnd(g: Graph, node: nat, vis0: seq<bool>, num0: seq<int>, out0: seq<int>, done: seq<Arc>,
                     vis: seq<bool>, num: seq<int>, out: seq<int>)
    requires WellFormed(g) && node < |g.succs| == |vis0| && VisitedSet(vis0) <= Nodes(g)
    requires Searching(g, node, |g.succs[node]|, SearchTree(g, node, VisitedSet(vis0)), done, vis0, num0, out0, vis,
          num, out)
    ensures Searched(g, node, vis0, vis, num0, num, out0, out)
  {
  }

  /** The search from `node`. `calls` are the recursive calls it makes, as pairs of caller
      and callee, in the order in which they end. */
  method DFS(cfg: CFG, node: nat, list: List, ghost g: Graph) returns (ghost calls: seq<Arc>)
    requires cfg.Represents(g) && node < cfg.nbNodes && !cfg.visited[node]
    requires list.nodes != cfg.number && list.index <= list.nodes.Length
    requires VisitedSet(cfg.visited[..]) <= Nodes(g)
    requires list.index + |SearchTree(g, node, VisitedSet(cfg.visited[..])).tree| <= list.nodes.Length
    modifies cfg.visited, cfg.number, list`index, list.nodes
    ensures list.index <= list.nodes.Length
    ensures Searched(g, node, old(cfg.visited[..]), cfg.visited[..], old(cfg.number[..]), cfg.number[..],
                     old(list.nodes[..list.index]), list.nodes[..list.index])
    ensures calls == SearchTree(g, node, VisitedSet(old(cfg.visited[..]))).tree
    ensures Unwritten(old(list.nodes[..]), list.nodes[..], list.index)
    decreases Nodes(g) - VisitedSet(cfg.visited[..]), 0
  {
    ghost var vis0, num0, out0 := cfg.visited[..], cfg.number[..], list.nodes[..list.index];
    ghost var slots := list.nodes[..];
    ghost var walk := SearchTree(g, node, VisitedSet(vis0));
    calls := [];
    ProgressStart(g, node, vis0);
    cfg.visited[node] := true;
    assert cfg.visited[..] == vis0[node := true];
    assert node in Nodes(g) - VisitedSet(vis0);
    for i := 0 to cfg.successors[node].nb
      invariant list.index <= list.nodes.Length && Unwritten(slots, list.nodes[..], list.index)
      invariant Searching(g, node, i, walk, calls, vis0, num0, out0,
                          cfg.visited[..], cfg.number[..], list.nodes[..list.index])
    {
      RemainingShrinks(g, node, vis0, cfg.visited[..]);
      calls := VisitSuccessor(cfg, node, i, list, g, walk, calls, vis0, num0, out0);
    }
    SearchingEnd(g, node, vis0, num0, out0, calls, cfg.visited[..], cfg.number[..], list.nodes[..list.index]);
  }

  /** The slots from `index` on are as they were. */
  ghost predicate Unwritten(slots0: seq<int>, slots: seq<int>, index: nat) {
    |slots| == |slots0| && forall k :: index <= k < |slots| ==> slots[k] == slots0[k]
  }

  lemma RemainingShrinks(g: Graph, node: nat, vis0: seq<bool>, vis: seq<bool>)
    requires |vis0| == |vis| && node < |vis0| && node in Nodes(g) && !vis0[node] && vis[node]
    requires forall u: nat :: u < |vis0| && vis0[u] ==> vis[u]
    ensures Nodes(g) - VisitedSet(vis) < Nodes(g) - VisitedSet(vis0)
  {
    assert node in Nodes(g) - VisitedSet(vis0);
  }

  /** The body of the loop, for the `i`-th successor. */
  method VisitSuccessor(cfg: CFG, node: nat, i: nat, list: List, ghost g: Graph, ghost walk: Walk,
                        ghost calls0: seq<Arc>, ghost vis0: seq<bool>, ghost num0: seq<int>, ghost out0: seq<int>)
    returns (ghost calls: seq<Arc>)
    requires cfg.Represents(g) && node < cfg.nbNodes && i < cfg.successors[node].nb
    requires list.nodes != cfg.number && list.index <= list.nodes.Length
    requires |out0| + |walk.tree| <= list.nodes.Length
    requires Searching(g, node, i, walk, calls0, vis0, num0, out0,
                       cfg.visited[..], cfg.number[..], list.nodes[..list.index])
    modifies cfg.visited, cfg.number, list`index, list.nodes
    ensures old(list.index) <= list.index <= list.nodes.Length
    ensures Unwritten(old(list.nodes[..]), list.nodes[..], list.index)
    ensures Searching(g, node, i + 1, walk, calls, vis0, num0, out0,
                      cfg.visited[..], cfg.number[..], list.nodes[..list.index])
    decreases Nodes(g) - VisitedSet(cfg.visited[..]), 1
  {
    var nextNode: nat := cfg.successors[node].items[i];
    assert nextNode == g.succs[node][i];
    ghost var vis, num, out := cfg.visited[..], cfg.number[..], list.nodes[..list.index];
    if !cfg.visited[nextNode] {
      ProgressDescend(g, node, i, walk, vis, calls0);
      ghost var below := DFS(cfg, nextNode, list, g);
      SearchingReturn(g, node, i, walk, calls0, vis0, num0, out0, vis, num, out,
                      cfg.visited[..], cfg.number[..], list.nodes[..list.index]);
      calls := calls0 + below + [Arc(node, nextNode)];
      ghost var num1, out1 := cfg.number[..], list.nodes[..list.index];
      cfg.number[nextNode] := list.index;
      list.nodes[list.index] := nextNode;
      list.index := list.index + 1;
      assert cfg.number[..] == num1[nextNode := |out1|];
      assert list.nodes[..list.index] == out1 + [nextNode];
    } else {
      calls := calls0;
      ProgressSkip(g, node, i, walk, vis, calls0);
    }
  }

  // ---------------------------------------------------- reverse postorder

  /** `order` lists the nodes by decreasing number. */
  ghost predicate ByDecreasingNumber(order: seq<int>, num: seq<int>) {
    && |order| == |num|
    && forall i :: 0 <= i < |order| ==> 0 <= order[i] < |num| && num[order[i]] == |num| - 1 - i
  }

  /** `order` starts with the header and ends with the finished nodes in reverse. If there
      are unreachable nodes, the slots in between are never written. */
  ghost predicate ListsFinished(g: Graph, order: seq<int>)
    requires WellFormed(g)
  {
    var tree := ExploreAll(g).tree;
    && |order| == |g.succs| && order[0] == g.header
    && forall k :: 0 <= k < |tree| ==> k < |order| && order[|order| - 1 - k] == tree[k].target
  }

  lemma InvertedFinished(g: Graph, nodes: seq<int>, order: seq<int>)
    requires WellFormed(g) && |nodes| == |order| == |g.succs| && |ExploreAll(g).tree| < |nodes|
    requires nodes[..|ExploreAll(g).tree|] == Children(ExploreAll(g).tree) && nodes[|nodes| - 1] == g.header
    requires forall k :: 0 <= k < |order| ==> order[k] == nodes[|nodes| - 1 - k]
    ensures ListsFinished(g, order)
  {
    var tree := ExploreAll(g).tree;
    forall k | 0 <= k < |tree|
      ensures order[|order| - 1 - k] == tree[k].target
    {
      assert nodes[..|tree|][k] == nodes[k];
    }
  }

  lemma FinishedByNumber(g: Graph, order: seq<int>, num: seq<int>)
    requires WellFormed(g) && AllReachable(g) && PostOrderNumbers(g, num) && ListsFinished(g, order)
    ensures ByDecreasingNumber(order, num)
  {
    var tree := ExploreAll(g).tree;
    AllSeen(g);
    forall i | 0 <= i < |order|
      ensures 0 <= order[i] < |num| && num[order[i]] == |num| - 1 - i
    {
      if i > 0 {
        var k := |order| - 1 - i;
        assert order[|order| - 1 - k] == tree[k].target;
      }
    }
  }

  /** A search of the whole graph from its header gives the postorder numbers, except
      that the header itself is still to be appended. */
  lemma SearchedAll(g: Graph, vis0: seq<bool>, vis1: seq<bool>, num0: seq<int>, num1: seq<int>, out: seq<int>)
    requires WellFormed(g) && |vis0| == |vis1| == |num0| == |num1| == |g.succs| && AllFalse(vis0)
    requires VisitedSet(vis0) <= Nodes(g) && Searched(g, g.header, vis0, vis1, num0, num1, [], out)
    ensures out == Children(ExploreAll(g).tree) && |out| <= |g.succs| - 1
    ensures PostOrderNumbers(g, num1[g.header := |g.succs| - 1])
    ensures forall u :: 0 <= u < |num0| && u !in ExploreAll(g).seen ==> num1[u] == num0[u]
  {
    assert VisitedSet(vis0) == {};
    assert {} + {g.header} == {g.header};
    TreeSize(g);
    ExploreTree(g, g.header, 0, {g.header});
    var tree := ExploreAll(g).tree;
    forall k | 0 <= k < |tree|
      ensures tree[k].target != g.header
    {
      assert tree[k].target !in {g.header};
    }
    assert forall u: nat :: u < |vis1| ==> (u in VisitedSet(vis1) <==> vis1[u]);
  }

  /** Room for the whole search. */
  lemma SearchAllFits(g: Graph, vis: seq<bool>)
    requires WellFormed(g) && |vis| == |g.succs| && AllFalse(vis)
    ensures VisitedSet(vis) == {}
    ensures SearchTree(g, g.header, {}) == ExploreAll(g) && |ExploreAll(g).tree| <= |g.succs| - 1
  {
    assert VisitedSet(vis) == {};
    assert {} + {g.header} == {g.header};
    TreeSize(g);
  }

  /** The numbering part: search from the header, then append the header. On any graph
      exactly the first slots, one for each finished node, and the last one are written;
      nodes that the header does not reach keep their numbers. */
  method NumberNodes(cfg: CFG, list: List, ghost g: Graph) returns (ghost calls: seq<Arc>)
    requires cfg.Represents(g)
    requires list.nodes.Length == cfg.nbNodes && list.index == 0
    requires list.nodes != cfg.number && list.nodes != cfg.dominator
    requires AllFalse(cfg.visited[..])
    modifies cfg.visited, cfg.number, list`index, list.nodes
    ensures calls == ExploreAll(g).tree
    ensures list.index == |calls| < cfg.nbNodes && list.nodes[..|calls|] == Children(calls)
    ensures list.nodes[cfg.nbNodes - 1] == cfg.header
    ensures forall k :: |calls| <= k < cfg.nbNodes - 1 ==> list.nodes[k] == old(list.nodes[k])
    ensures PostOrderNumbers(g, cfg.number[..])
    ensures forall u :: 0 <= u < cfg.nbNodes && u !in ExploreAll(g).seen ==> cfg.number[u] == old(cfg.number[u])
  {
    ghost var vis0, num0, slots := cfg.visited[..], cfg.number[..], list.nodes[..];
    SearchAllFits(g, vis0);
    assert list.nodes[..0] == [];
    calls := DFS(cfg, cfg.header, list, g);
    ghost var num1, out := cfg.number[..], list.nodes[..list.index];
    SearchedAll(g, vis0, cfg.visited[..], num0, num1, out);
    list.nodes[cfg.nbNodes - 1] := cfg.header;
    cfg.number[list.nodes[cfg.nbNodes - 1]] := cfg.nbNodes - 1;
    assert cfg.number[..] == num1[g.header := cfg.nbNodes - 1];
    assert list.nodes[..list.index] == out;
    HeaderSeen(g);
  }

  lemma HeaderSeen(g: Graph)
    requires WellFormed(g)
    ensures g.header in ExploreAll(g).seen
  {
  }

  /** The loop that inverts the list. */
  method Invert(nodes: array<int>, order: array<int>)
    requires nodes.Length == order.Length && nodes != order
    modifies order
    ensures forall k :: 0 <= k < order.Length ==> order[k] == nodes[nodes.Length - 1 - k]
  {
    var n := order.Length;
    for i := 0 to n
      invariant forall k :: n - i <= k < n ==> order[k] == nodes[n - 1 - k]
    {
      order[n - 1 - i] := nodes[i];
    }
  }

  method ReversePostOrder(cfg: CFG, order: array<int>, ghost g: Graph) returns (ghost calls: seq<Arc>)
    requires cfg.Represents(g)
    requires order.Length == cfg.nbNodes && order != cfg.number && order != cfg.dominator
    requires AllFalse(cfg.visited[..])
    modifies cfg.visited, cfg.number, order
    ensures calls == ExploreAll(g).tree
    ensures PostOrderNumbers(g, cfg.number[..]) && ListsFinished(g, order[..])
    ensures AllFalse(cfg.visited[..])
  {
    var n := cfg.nbNodes;
    var list := new List(n);
    calls := NumberNodes(cfg, list, g);
    cfg.ResetVisited();
    Invert(list.nodes, order);
    InvertedFinished(g, list.nodes[..], order[..]);
  }

  // -------------------------------------------------------------- intersect

  /** The lowest common ancestor of two processed nodes of the partial tree. */
  method Intersect(cfg: CFG, b1: nat, b2: nat, ghost g: Graph) returns (finger1: nat)
    requires cfg.Valid() && Tree(g, cfg.number[..], cfg.dominator[..])
    requires Processed(cfg.dominator[..], b1) && Processed(cfg.dominator[..], b2)
    ensures Processed(cfg.dominator[..], finger1)
    ensures Chain(g, cfg.number[..], cfg.dominator[..], finger1)
            == Chain(g, cfg.number[..], cfg.dominator[..], b1) * Chain(g, cfg.number[..], cfg.dominator[..], b2)
  {
    ghost var num, dom := cfg.number[..], cfg.dominator[..];
    ghost var common := Chain(g, num, dom, b1) * Chain(g, num, dom, b2);
    finger1 := b1;
    var finger2: nat := b2;
    while cfg.number[finger1] != cfg.number[finger2]
      invariant Fingers(g, num, dom, finger1, finger2, common)
      decreases 2 * cfg.nbNodes - num[finger1] - num[finger2]
    {
      ghost var sum := num[finger1] + num[finger2];
      while cfg.number[finger1] < cfg.number[finger2]
        invariant Fingers(g, num, dom, finger1, finger2, common)
        invariant num[finger1] + num[finger2] >= sum
        invariant num[finger1] + num[finger2] > sum || num[finger1] != num[finger2]
        decreases cfg.nbNodes - num[finger1]
      {
        FingerUp(g, num, dom, finger1, finger2, common);
        finger1 := cfg.dominator[finger1];
      }
      while cfg.number[finger1] > cfg.number[finger2]
        invariant Fingers(g, num, dom, finger1, finger2, common)
        invariant num[finger1] + num[finger2] > sum || num[finger1] > num[finger2]
        invariant num[finger1] + num[finger2] >= sum
        decreases cfg.nbNodes - num[finger2]
      {
        OtherFingerUp(g, num, dom, finger1, finger2, common);
        finger2 := cfg.dominator[finger2];
      }
    }
    FingersMeet(g, num, dom, finger1, finger2, common);
  }

  // --------------------------------------------------- immediate dominators

  ghost predicate ProcessedFlags(processed: seq<bool>, dom: seq<int>) {
    |processed| == |dom| && forall v :: 0 <= v < |dom| ==> (processed[v] <==> dom[v] != NULL)
  }

  /** The situation in which the loop looks at node `b`. */
  ghost predicate Turn(g: Graph, num: seq<int>, dom: seq<int>, b: nat) {
    && Sound(g, num, dom) && AllReachable(g) && EarlierPredecessors(g, num)
    && b < |dom| && b != g.header
    && forall v: nat :: v < |num| && num[v] > num[b] ==> dom[v] != NULL
  }

  lemma TurnInPass(g: Graph, num: seq<int>, dom: seq<int>, passes: nat, i: nat, b: nat)
    requires InPass(g, num, dom, passes, i) && AllReachable(g) && EarlierPredecessors(g, num)
    requires 1 <= i && b < |num| && num[b] == |num| - 1 - i
    ensures Turn(g, num, dom, b)
  {
  }

  /** Some predecessor of `b` is processed: its depth-first parent, at least. */
  lemma ProcessedPredecessor(g: Graph, num: seq<int>, dom: seq<int>, preds: seq<nat>, b: nat) returns (i: nat)
    requires Turn(g, num, dom, b) && ListsPredecessors(g, preds, b)
    ensures i < |preds| && Processed(dom, preds[i])
  {
    assert HasEarlierPredecessor(g, num, b);
    var u: nat :| Edge(g, u, b) && num[u] > num[b];
    i :| 0 <= i < |preds| && preds[i] == u;
  }

  /** `first` is the first processed node of the list. */
  ghost predicate IsFirstProcessed(preds: seq<nat>, dom: seq<int>, first: int) {
    exists i :: 0 <= i < |preds| && preds[i] == first && Processed(dom, preds[i])
                && forall k :: 0 <= k < i ==> !Processed(dom, preds[k])
  }

  /** The first loop over the predecessors of `b`. The pointer is undefined before a
      processed predecessor is found; one is known to exist. */
  method FirstProcessed(cfg: CFG, b: nat, ghost known: nat) returns (newIdom: int)
    requires cfg.Valid() && b < cfg.nbNodes && cfg.predecessors[b].Full()
    requires forall p :: p in cfg.predecessors[b].items ==> p < cfg.nbNodes
    requires ProcessedFlags(cfg.processed[..], cfg.dominator[..])
    requires known < cfg.predecessors[b].nb && Processed(cfg.dominator[..], cfg.predecessors[b].items[known])
    ensures newIdom in cfg.predecessors[b].items && Processed(cfg.dominator[..], newIdom)
    ensures IsFirstProcessed(cfg.predecessors[b].items, cfg.dominator[..], newIdom)
  {
    var preds := cfg.predecessors[b];
    newIdom := *;
    for i := 0 to preds.nb
      invariant i <= known
      invariant forall k :: 0 <= k < i ==> !Processed(cfg.dominator[..], preds.items[k])
    {
      var predecessor := preds.items[i];
      assert predecessor in preds.items;
      if cfg.processed[predecessor] {
        newIdom := preds.items[i];
        return;
      }
      assert cfg.dominator[predecessor] == NULL;
    }
    assert false;
  }

  /** Both loops over the predecessors of `b`: the lowest common ancestor of all the
      processed ones. */
  method NewIdom(cfg: CFG, b: nat, ghost g: Graph) returns (newIdom: int, ghost first: nat)
    requires cfg.Linked(g) && ProcessedFlags(cfg.processed[..], cfg.dominator[..])
    requires Turn(g, cfg.number[..], cfg.dominator[..], b)
    ensures 0 <= newIdom < cfg.nbNodes
    ensures Candidate(g, cfg.number[..], cfg.dominator[..], cfg.predecessors[b].items, first, b, newIdom)
  {
    ghost var num, dom := cfg.number[..], cfg.dominator[..];
    var preds := cfg.predecessors[b];
    InverseListsEdges(g, Items(cfg.predecessors[..]));
    assert ListsPredecessors(g, preds.items, b);
    ghost var known := ProcessedPredecessor(g, num, dom, preds.items, b);
    newIdom := FirstProcessed(cfg, b, known);
    first := newIdom;
    for i := 0 to preds.nb
      invariant 0 <= newIdom < cfg.nbNodes
      invariant IsMeet(g, num, dom, preds.items, first, i, newIdom)
    {
      var p: nat := preds.items[i];
      if cfg.dominator[p] != NULL {
        ghost var z := newIdom;
        newIdom := Intersect(cfg, p, newIdom, g);
        MeetStep(g, num, dom, preds.items, first, i, z, newIdom);
      } else {
        MeetSkip(g, num, dom, preds.items, first, i, newIdom);
      }
    }
  }

  /** While a pass has changed nothing, the nodes done are fixed; a pass after the
      pointers are settled changes nothing. */
  ghost predicate Quiet(g: Graph, num: seq<int>, dom: seq<int>, passes: nat, i: int, changed: bool)
    requires Tree(g, num, dom)
  {
    && (!changed ==> FixedFrom(g, num, dom, |num| - i))
    && forall k: nat :: Settles(g, num, k) && k < passes ==> !changed
  }

  lemma QuietStep(g: Graph, num: seq<int>, dom: seq<int>, passes: nat, i: int, changed: bool,
                  preds: seq<nat>, first: nat, b: nat, z: nat)
    requires InPass(g, num, dom, passes, i) && Quiet(g, num, dom, passes, i, changed)
    requires Candidate(g, num, dom, preds, first, b, z) && num[b] == |num| - 1 - i
    ensures InPass(g, num, dom[b := z], passes, i + 1)
    ensures Quiet(g, num, dom[b := z], passes, i + 1, changed || dom[b] != z)
  {
    PassStep(g, num, dom, preds, first, b, z, passes, i);
    if dom[b] == z {
      assert dom[b := z] == dom;
      QuietUnchanged(g, num, dom, passes, i, changed, preds, first, b, z);
    } else {
      forall k: nat | Settles(g, num, k) && k < passes
        ensures false
      {
        PassStepSettled(g, num, dom, preds, first, b, z, passes, i, k);
      }
    }
  }

  lemma QuietUnchanged(g: Graph, num: seq<int>, dom: seq<int>, passes: nat, i: int, changed: bool,
                       preds: seq<nat>, first: nat, b: nat, z: nat)
    requires Tree(g, num, dom) && Quiet(g, num, dom, passes, i, changed)
    requires Candidate(g, num, dom, preds, first, b, z) && num[b] == |num| - 1 - i && dom[b] == z
    ensures Quiet(g, num, dom, passes, i + 1, changed)
  {
    if !changed {
      FixedStep(g, num, dom, preds, first, b, z);
    }
  }

  method UpdateDominator(cfg: CFG, b: nat, newIdom: int) returns (updated: bool)
    requires cfg.Valid() && b < cfg.nbNodes && newIdom != NULL
    requires ProcessedFlags(cfg.processed[..], cfg.dominator[..])
    modifies cfg.dominator, cfg.processed
    ensures updated <==> old(cfg.dominator[b]) != newIdom
    ensures cfg.dominator[..] == old(cfg.dominator[..])[b := newIdom]
    ensures ProcessedFlags(cfg.processed[..], cfg.dominator[..])
  {
    updated := cfg.dominator[b] != newIdom;
    if updated {
      cfg.dominator[b] := newIdom;
      cfg.processed[b] := true;
    }
  }

  /** The body of the inner loop: recompute the pointer of the `i`-th node `b`. */
  method ProcessNode(cfg: CFG, b: nat, ghost g: Graph, ghost num: seq<int>, ghost passes: nat, ghost i: nat,
                     changed: bool) returns (changed': bool)
    requires cfg.Linked(g) && num == cfg.number[..]
    requires ProcessedFlags(cfg.processed[..], cfg.dominator[..])
    requires InPass(g, num, cfg.dominator[..], passes, i) && AllReachable(g) && EarlierPredecessors(g, num)
    requires Quiet(g, num, cfg.dominator[..], passes, i, changed)
    requires 1 <= i && b < |num| && num[b] == |num| - 1 - i
    modifies cfg.dominator, cfg.processed
    ensures ProcessedFlags(cfg.processed[..], cfg.dominator[..])
    ensures InPass(g, num, cfg.dominator[..], passes, i + 1)
    ensures Quiet(g, num, cfg.dominator[..], passes, i + 1, changed')
  {
    ghost var dom := cfg.dominator[..];
    TurnInPass(g, num, dom, passes, i, b);
    ghost var first;
    var newIdom;
    newIdom, first := NewIdom(cfg, b, g);
    QuietStep(g, num, dom, passes, i, changed, cfg.predecessors[b].items, first, b, newIdom);
    var updated := UpdateDominator(cfg, b, newIdom);
    changed' := changed || updated;
  }

  /** One pass over all nodes but the header, in reverse postorder. */
  method OnePass(cfg: CFG, order: array<int>, ghost g: Graph, ghost num: seq<int>, ghost passes: nat)
    returns (changed: bool)
    requires cfg.Linked(g) && num == cfg.number[..]
    requires InPass(g, num, cfg.dominator[..], passes, 1) && AllReachable(g) && EarlierPredecessors(g, num)
    requires order != cfg.dominator && ByDecreasingNumber(order[..], num)
    requires ProcessedFlags(cfg.processed[..], cfg.dominator[..])
    modifies cfg.dominator, cfg.processed
    ensures ProcessedFlags(cfg.processed[..], cfg.dominator[..])
    ensures InPass(g, num, cfg.dominator[..], passes, cfg.nbNodes)
    ensures Quiet(g, num, cfg.dominator[..], passes, cfg.nbNodes, changed)
  {
    changed := false;
    for i := 1 to cfg.nbNodes
      invariant cfg.number[..] == num
      invariant ProcessedFlags(cfg.processed[..], cfg.dominator[..])
      invariant InPass(g, num, cfg.dominator[..], passes, i)
      invariant Quiet(g, num, cfg.dominator[..], passes, i, changed)
    {
      changed := ProcessNode(cfg, order[i], g, num, passes, i, changed);
    }
  }

  lemma QuietEnd(g: Graph, num: seq<int>, dom: seq<int>, passes: nat)
    requires InPass(g, num, dom, passes, |num|) && Quiet(g, num, dom, passes, |num|, false)
    ensures Fixed(g, num, dom)
  {
  }

  /** The outer loop: passes until nothing changes. It takes at most `k + 2` of them
      when paths with `k` retreating edges suffice, and never more than the number of
      nodes plus one. */
  method Iterate(cfg: CFG, order: array<int>, ghost g: Graph, ghost num: seq<int>) returns (ghost passes: nat)
    requires cfg.Linked(g) && num == cfg.number[..]
    requires InPass(g, num, cfg.dominator[..], 0, 1) && AllReachable(g) && EarlierPredecessors(g, num)
    requires order != cfg.dominator && ByDecreasingNumber(order[..], num)
    requires ProcessedFlags(cfg.processed[..], cfg.dominator[..])
    modifies cfg.dominator, cfg.processed
    ensures ProcessedFlags(cfg.processed[..], cfg.dominator[..])
    ensures Exact(g, num, cfg.dominator[..])
    ensures forall k: nat :: Settles(g, num, k) ==> passes <= k + 2
    ensures passes <= cfg.nbNodes + 1
  {
    SettlesAtSize(g, num);
    ghost var order0 := order[..];
    var changed := true;
    passes := 0;
    while changed
      invariant cfg.number[..] == num && order[..] == order0
      invariant ProcessedFlags(cfg.processed[..], cfg.dominator[..])
      invariant InPass(g, num, cfg.dominator[..], passes, 1)
      invariant !changed ==> Fixed(g, num, cfg.dominator[..])
      invariant forall k: nat :: Settles(g, num, k) ==> passes <= if changed then k + 1 else k + 2
      decreases cfg.nbNodes + 1 - passes, changed
    {
      changed := OnePass(cfg, order, g, num, passes);
      NextPass(g, num, cfg.dominator[..], passes);
      if !changed {
        QuietEnd(g, num, cfg.dominator[..], passes);
      }
      passes := passes + 1;
    }
    FixedIsExact(g, num, cfg.dominator[..]);
  }

  /** On an acyclic graph paths without retreating edges settle dominance. */
  lemma AcyclicSettles(g: Graph, num: seq<int>)
    requires WellFormed(g) && AllReachable(g) && PostOrderNumbers(g, num)
    ensures Acyclic(g) ==> Settles(g, num, 0)
  {
    if Acyclic(g) {
      AcyclicIsTopological(g, num);
      SettlesTopological(g, num);
    }
  }

  /** Computes the immediate dominators in place. Returns the number of passes, and the
      recursive calls of the search that numbered the nodes. */
  method ComputeIdom(cfg: CFG, ghost g: Graph) returns (ghost passes: nat, ghost calls: seq<Arc>)
    requires cfg.Linked(g) && AllReachable(g)
    requires AllFalse(cfg.visited[..]) && AllFalse(cfg.processed[..])
    requires forall v :: 0 <= v < cfg.nbNodes ==> cfg.dominator[v] == NULL
    modifies cfg.visited, cfg.number, cfg.dominator, cfg.processed
    ensures PostOrderNumbers(g, cfg.number[..])
    ensures Exact(g, cfg.number[..], cfg.dominator[..])
    ensures forall k: nat :: Settles(g, cfg.number[..], k) ==> passes <= k + 2
    ensures passes <= cfg.nbNodes + 1
    ensures forall k: nat :: SimplePathsRetreat(g, cfg.number[..], k) ==> passes <= k + 2
    ensures Acyclic(g) ==> passes <= 2
    ensures calls == ExploreAll(g).tree
    ensures AllFalse(cfg.visited[..])
  {
    var listPostOrder := new int[cfg.nbNodes];
    calls := ReversePostOrder(cfg, listPostOrder, g);
    ghost var num := cfg.number[..];
    FinishedByNumber(g, listPostOrder[..], num);
    AcyclicSettles(g, num);
    PostOrderIsNumbering(g, num);
    cfg.dominator[cfg.header] := cfg.header;
    cfg.processed[cfg.header] := true;
    FirstPass(g, num, cfg.dominator[..]);
    assert cfg.number[..] == num;
    passes := Iterate(cfg, listPostOrder, g, num);
    assert cfg.number[..] == num;
    forall k: nat | SimplePathsRetreat(g, num, k)
      ensures passes <= k + 2
    {
      SettlesSimplePaths(g, num, k);
    }
  }
}
