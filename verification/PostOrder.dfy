/** What the postorder numbers of the depth-first traversal guarantee. */
module PostOrder {
  import opened Graphs
  import opened DepthFirst
  import opened DominatorTree

  /** Node `num` k is the k-th finished node; the entry has the last number. */
  ghost predicate PostOrderNumbers(g: Graph, num: seq<int>)
    requires WellFormed(g)
  {
    var tree := ExploreAll(g).tree;
    && |num| == |g.succs|
    && (forall k :: 0 <= k < |tree| ==> tree[k].target < |num| && num[tree[k].target] == k)
    && num[g.header] == |num| - 1
  }

  /** Every node but the entry is a child of the tree. */
  lemma NodeIsChild(g: Graph, v: nat)
    requires WellFormed(g) && AllReachable(g) && v < |g.succs| && v != g.header
    ensures IsChild(ExploreAll(g).tree, v)
  {
    ExploreAllReachable(g);
    ExploreTree(g, g.header, 0, {g.header});
  }

  /** The search records an edge to every node but the header exactly if the header reaches
      all nodes; otherwise slots of the list of nodes stay unwritten. */
  lemma ListFilledIff(g: Graph)
    requires WellFormed(g)
    ensures |ExploreAll(g).tree| == |g.succs| - 1 <==> AllReachable(g)
  {
    TreeSize(g);
    ExploreAllReachable(g);
    var seen := ExploreAll(g).seen;
    if AllReachable(g) {
      assert seen == Nodes(g);
    } else {
      var u: nat :| u < |g.succs| && !Reachable(g, u);
      SubsetSize(seen, Nodes(g) - {u});
    }
  }

  lemma AllSeen(g: Graph)
    requires WellFormed(g) && AllReachable(g)
    ensures ExploreAll(g).seen == Nodes(g)
    ensures |ExploreAll(g).tree| == |g.succs| - 1
  {
    ExploreAllReachable(g);
    TreeSize(g);
    assert ExploreAll(g).seen == Nodes(g);
  }

  /** The numbers are a bijection, and the tree parent of a node, which is one of its
      predecessors, has a larger number. */
  lemma PostOrderIsNumbering(g: Graph, num: seq<int>)
    requires WellFormed(g) && AllReachable(g) && PostOrderNumbers(g, num)
    ensures Numbering(g, num) && EarlierPredecessors(g, num)
  {
    var tree := ExploreAll(g).tree;
    AllSeen(g);
    ExploreTree(g, g.header, 0, {g.header});
    forall v: nat | v < |num| && v != g.header
      ensures 0 <= num[v] < |num| - 1 && tree[num[v]].target == v
    {
      NodeIsChild(g, v);
      var k :| 0 <= k < |tree| && tree[k].target == v;
    }
    forall v: nat | v < |num| && v != g.header
      ensures HasEarlierPredecessor(g, num, v)
    {
      assert TreeEdgeOk(g, g.header, tree, num[v]);
      assert Edge(g, tree[num[v]].start, v);
    }
  }

  /** An edge that does not lead to a smaller number leads to an ancestor-or-self. */
  lemma RetreatingEdgeToAncestor(g: Graph, num: seq<int>, u: nat, v: nat)
    requires WellFormed(g) && AllReachable(g) && PostOrderNumbers(g, num)
    requires Edge(g, u, v) && num[v] >= num[u]
    ensures Ancestor(ExploreAll(g).tree, v, u)
  {
    var tree := ExploreAll(g).tree;
    ExploreDescends(g, g.header, 0, {g.header});
    AllSeen(g);
    PostOrderIsNumbering(g, num);
    if v == g.header || u == g.header {
      if u == v {
        AncestorSelf(tree, u);
      } else {
        NodeIsChild(g, u);
      }
    } else {
      ExploreClassifies(g, g.header, 0, {g.header});
      NodeIsChild(g, u);
      var k :| 0 <= k < |tree| && tree[k].target == u;
      assert EdgesClassified(g, {g.header}, tree, k);
    }
  }

  /** On an acyclic graph reverse postorder is a topological order. */
  lemma AcyclicIsTopological(g: Graph, num: seq<int>)
    requires WellFormed(g) && AllReachable(g) && PostOrderNumbers(g, num) && Acyclic(g)
    ensures Topological(g, num)
  {
    forall u: nat, v: nat | Edge(g, u, v)
      ensures num[v] < num[u]
    {
      if num[v] >= num[u] {
        RetreatingEdgeToAncestor(g, num, u, v);
        var tree := ExploreAll(g).tree;
        var p :| TreePath(tree, p) && p[0] == v && p[|p| - 1] == u;
        TreePathIsPath(g, p, v, u);
        PathAppend(g, p, v, u, v);
      }
    }
  }

  lemma TreePathIsPath(g: Graph, p: seq<nat>, v: nat, u: nat)
    requires WellFormed(g) && v < |g.succs|
    requires TreePath(ExploreAll(g).tree, p) && p[0] == v && p[|p| - 1] == u
    ensures PathBetween(g, p, v, u)
  {
    var tree := ExploreAll(g).tree;
    ExploreTree(g, g.header, 0, {g.header});
    forall i | 0 <= i < |p| - 1
      ensures Edge(g, p[i], p[i + 1])
    {
      assert Arc(p[i], p[i + 1]) in tree;
      var k :| 0 <= k < |tree| && tree[k] == Arc(p[i], p[i + 1]);
      assert TreeEdgeOk(g, g.header, tree, k);
    }
    forall i | 0 <= i < |p|
      ensures p[i] < |g.succs|
    {
      if i > 0 {
        assert Edge(g, p[i - 1], p[i - 1 + 1]);
      }
    }
  }
}
