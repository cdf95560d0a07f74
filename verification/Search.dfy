/** The bookkeeping of a depth-first search that runs on visited flags: at each point
    what was recorded so far and what `Explore` still adds make up the whole. */
module Search {
  import opened Graphs
  import opened DepthFirst

  ghost function VisitedSet(visited: seq<bool>): set<nat> {
    set u: nat | u < |visited| && visited[u]
  }

  /** What a search from the unvisited `node` visits, and the tree edges it takes. */
  ghost function SearchTree(g: Graph, node: nat, seen: set<nat>): (r: Walk)
    requires WellFormed(g) && node < |g.succs| && seen <= Nodes(g)
  {
    Explore(g, node, 0, seen + {node})
  }

  /** The search from `node` has handled its first `i` successors and taken the tree
      edges `done`; what it still has to do completes `walk`. */
  ghost predicate Progress(g: Graph, node: nat, i: nat, walk: Walk, vis: seq<bool>, done: seq<Arc>) {
    && Start(g, node, i, VisitedSet(vis)) && |vis| == |g.succs|
    && Explore(g, node, i, VisitedSet(vis)).seen == walk.seen
    && done + Explore(g, node, i, VisitedSet(vis)).tree == walk.tree
    && forall k :: 0 <= k < |done| ==> done[k].target < |vis| && vis[done[k].target]
  }

  lemma ProgressStart(g: Graph, node: nat, vis: seq<bool>)
    requires WellFormed(g) && node < |g.succs| == |vis| && VisitedSet(vis) <= Nodes(g)
    ensures Progress(g, node, 0, SearchTree(g, node, VisitedSet(vis)), vis[node := true], [])
  {
    assert VisitedSet(vis[node := true]) == VisitedSet(vis) + {node};
  }

  lemma ProgressSkip(g: Graph, node: nat, i: nat, walk: Walk, vis: seq<bool>, done: seq<Arc>)
    requires Progress(g, node, i, walk, vis, done)
    requires i < |g.succs[node]| && vis[g.succs[node][i]]
    ensures Progress(g, node, i + 1, walk, vis, done)
  {
  }

  lemma ProgressDescend(g: Graph, node: nat, i: nat, walk: Walk, vis: seq<bool>, done: seq<Arc>)
    requires Progress(g, node, i, walk, vis, done)
    requires i < |g.succs[node]| && !vis[g.succs[node][i]]
    ensures g.succs[node][i] !in VisitedSet(vis)
    ensures |done| + |SearchTree(g, g.succs[node][i], VisitedSet(vis)).tree| < |walk.tree|
  {
  }

  lemma ProgressReturn(g: Graph, node: nat, i: nat, walk: Walk, vis: seq<bool>, done: seq<Arc>, vis1: seq<bool>)
    requires Progress(g, node, i, walk, vis, done)
    requires i < |g.succs[node]| && !vis[g.succs[node][i]] && |vis1| == |vis|
    requires VisitedSet(vis1) == SearchTree(g, g.succs[node][i], VisitedSet(vis)).seen
    ensures Progress(g, node, i + 1, walk, vis1,
                     done + SearchTree(g, g.succs[node][i], VisitedSet(vis)).tree + [Arc(node, g.succs[node][i])])
  {
    var w := g.succs[node][i];
    var seen := VisitedSet(vis);
    var below := SearchTree(g, w, seen);
    var rest := Explore(g, node, i + 1, below.seen);
    var done1 := done + below.tree + [Arc(node, w)];
    assert w !in seen;
    ExploreTree(g, w, 0, seen + {w});
    assert walk.tree == done + (below.tree + [Arc(node, w)] + rest.tree);
    assert done1 + rest.tree == walk.tree;
    forall k | 0 <= k < |done1|
      ensures done1[k].target < |vis1| && vis1[done1[k].target]
    {
      if k < |done| {
        assert done[k].target in VisitedSet(vis);
      } else if k < |done| + |below.tree| {
        assert IsChild(below.tree, below.tree[k - |done|].target);
      }
      assert done1[k].target in VisitedSet(vis1);
    }
  }
}
