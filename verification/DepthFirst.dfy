/** Depth-first exploration as a function. The two recursive traversals of the
    program, the one that builds the graph and the one that numbers it, are both
    proved against `Explore`. */
module DepthFirst {
  import opened Graphs

  /** The visited nodes after an exploration and the tree edges (parent, child) in
      the order in which the children were finished. */
  datatype Walk = Walk(seen: set<nat>, tree: seq<Arc>)

  function NodesBelow(n: nat): (nodes: set<nat>)
    ensures forall u: nat :: u in nodes <==> u < n
    ensures |nodes| == n
  {
    if n == 0 then {} else NodesBelow(n - 1) + {n - 1}
  }

  function Nodes(g: Graph): set<nat> {
    NodesBelow(|g.succs|)
  }

  ghost predicate Start(g: Graph, v: nat, i: nat, seen: set<nat>) {
    && WellFormed(g)
    && v in seen && seen <= Nodes(g)
    && i <= |g.succs[v]|
  }

  /** Explores from the successors of `v` from position `i` on. */
  function Explore(g: Graph, v: nat, i: nat, seen: set<nat>): (r: Walk)
    requires Start(g, v, i, seen)
    ensures seen <= r.seen <= Nodes(g)
    decreases Nodes(g) - seen, |g.succs[v]| - i
  {
    if i == |g.succs[v]| then Walk(seen, [])
    else
      var w := g.succs[v][i];
      if w in seen then Explore(g, v, i + 1, seen)
      else
        var below := Explore(g, w, 0, seen + {w});
        assert w in Nodes(g) - seen && w !in Nodes(g) - below.seen;
        var rest := Explore(g, v, i + 1, below.seen);
        Walk(rest.seen, below.tree + [Arc(v, w)] + rest.tree)
  }

  /** The exploration of the whole graph from its entry. */
  function ExploreAll(g: Graph): Walk
    requires WellFormed(g)
  {
    Explore(g, g.header, 0, {g.header})
  }

  // --------------------------------------------------- shape of the tree

  ghost predicate IsChild(tree: seq<Arc>, u: nat) {
    exists k :: 0 <= k < |tree| && tree[k].target == u
  }

  /** Tree edge `k` is an edge of the graph, and its parent is the root `v` or is
      itself finished later. */
  ghost predicate TreeEdgeOk(g: Graph, v: nat, tree: seq<Arc>, k: nat)
    requires k < |tree|
  {
    && Edge(g, tree[k].start, tree[k].target)
    && (tree[k].start == v || exists m :: k < m < |tree| && tree[m].target == tree[k].start)
  }

  ghost predicate DistinctChildren(tree: seq<Arc>) {
    forall k, m :: 0 <= k < m < |tree| ==> tree[k].target != tree[m].target
  }

  /** The children of the tree are exactly the newly visited nodes, each once; edges
      of the tree are edges of the graph whose parents finish after their children. */
  ghost predicate TreeOk(g: Graph, v: nat, seen: set<nat>, r: Walk) {
    && (forall u: nat :: u in r.seen <==> u in seen || IsChild(r.tree, u))
    && (forall k :: 0 <= k < |r.tree| ==> r.tree[k].target !in seen)
    && DistinctChildren(r.tree)
    && forall k :: 0 <= k < |r.tree| ==> TreeEdgeOk(g, v, r.tree, k)
  }

  lemma {:induction false} ExploreTree(g: Graph, v: nat, i: nat, seen: set<nat>)
    requires Start(g, v, i, seen)
    ensures TreeOk(g, v, seen, Explore(g, v, i, seen))
    decreases Nodes(g) - seen, |g.succs[v]| - i
  {
    if i == |g.succs[v]| {
    } else {
      var w := g.succs[v][i];
      if w in seen {
        ExploreTree(g, v, i + 1, seen);
      } else {
        var below := Explore(g, w, 0, seen + {w});
        assert w in Nodes(g) - seen && w !in Nodes(g) - below.seen;
        ExploreTree(g, w, 0, seen + {w});
        ExploreTree(g, v, i + 1, below.seen);
        TreeJoin(g, v, w, seen, below, Explore(g, v, i + 1, below.seen));
      }
    }
  }

  lemma TreeJoin(g: Graph, v: nat, w: nat, seen: set<nat>, below: Walk, rest: Walk)
    requires v in seen && w !in seen && Edge(g, v, w)
    requires TreeOk(g, w, seen + {w}, below) && TreeOk(g, v, below.seen, rest)
    ensures TreeOk(g, v, seen, Walk(rest.seen, below.tree + [Arc(v, w)] + rest.tree))
  {
    var tree := below.tree + [Arc(v, w)] + rest.tree;
    forall u: nat
      ensures u in rest.seen <==> u in seen || IsChild(tree, u)
    {
      ChildJoin(below.tree, Arc(v, w), rest.tree, u);
    }
    forall k | 0 <= k < |below.tree|
      ensures below.tree[k].target in below.seen
    {
      assert IsChild(below.tree, below.tree[k].target);
    }
    forall k | 0 <= k < |tree|
      ensures TreeEdgeOk(g, v, tree, k)
    {
      TreeEdgeJoin(g, v, w, below.tree, rest.tree, k);
    }
  }

  lemma ChildJoin(below: seq<Arc>, e: Arc, rest: seq<Arc>, u: nat)
    ensures IsChild(below + [e] + rest, u) <==> IsChild(below, u) || u == e.target || IsChild(rest, u)
  {
    var tree := below + [e] + rest;
    if IsChild(below, u) {
      var k :| 0 <= k < |below| && below[k].target == u;
      assert tree[k].target == u;
    }
    assert tree[|below|] == e;
    if IsChild(rest, u) {
      var k :| 0 <= k < |rest| && rest[k].target == u;
      assert tree[|below| + 1 + k].target == u;
    }
    if IsChild(tree, u) {
      var k :| 0 <= k < |tree| && tree[k].target == u;
      if k < |below| {
        assert below[k].target == u;
      } else if k > |below| {
        assert rest[k - |below| - 1].target == u;
      }
    }
  }

  lemma TreeEdgeJoin(g: Graph, v: nat, w: nat, below: seq<Arc>, rest: seq<Arc>, k: nat)
    requires Edge(g, v, w)
    requires forall m :: 0 <= m < |below| ==> TreeEdgeOk(g, w, below, m)
    requires forall m :: 0 <= m < |rest| ==> TreeEdgeOk(g, v, rest, m)
    requires k < |below| + 1 + |rest|
    ensures TreeEdgeOk(g, v, below + [Arc(v, w)] + rest, k)
  {
    var tree := below + [Arc(v, w)] + rest;
    var at := |below|;
    assert tree[at].target == w;
    if k < at {
      assert TreeEdgeOk(g, w, below, k);
      if tree[k].start != w {
        var m :| k < m < at && below[m].target == below[k].start;
        assert tree[m].target == tree[k].start;
      }
    } else if k > at {
      assert TreeEdgeOk(g, v, rest, k - at - 1);
      if tree[k].start != v {
        var m :| k - at - 1 < m < |rest| && rest[m].target == rest[k - at - 1].start;
        assert tree[at + 1 + m].target == tree[k].start;
      }
    }
  }

  // ---------------------------------------------------------- completeness

  ghost predicate SuccessorsIn(g: Graph, u: nat, from: nat, seen: set<nat>)
    requires u < |g.succs|
  {
    forall j :: from <= j < |g.succs[u]| ==> g.succs[u][j] in seen
  }

  /** Everything an exploration visits is explored completely. */
  lemma {:induction false} ExploreCloses(g: Graph, v: nat, i: nat, seen: set<nat>)
    requires Start(g, v, i, seen)
    ensures SuccessorsIn(g, v, i, Explore(g, v, i, seen).seen)
    ensures forall u: nat :: u in Explore(g, v, i, seen).seen - seen ==>
              SuccessorsIn(g, u, 0, Explore(g, v, i, seen).seen)
    decreases Nodes(g) - seen, |g.succs[v]| - i
  {
    if i == |g.succs[v]| {
    } else {
      var w := g.succs[v][i];
      if w in seen {
        ExploreCloses(g, v, i + 1, seen);
      } else {
        var below := Explore(g, w, 0, seen + {w});
        assert w in Nodes(g) - seen && w !in Nodes(g) - below.seen;
        ExploreCloses(g, w, 0, seen + {w});
        ExploreCloses(g, v, i + 1, below.seen);
        forall u: nat | u in Explore(g, v, i, seen).seen - seen
          ensures SuccessorsIn(g, u, 0, Explore(g, v, i, seen).seen)
        {
          if u in below.seen {
            assert u == w || u in below.seen - (seen + {w});
            assert SuccessorsIn(g, u, 0, below.seen);
          }
        }
      }
    }
  }

  lemma {:induction false} ClosedHoldsPath(g: Graph, seen: set<nat>, p: seq<nat>)
    requires Path(g, p) && p[0] in seen
    requires forall u: nat :: u in seen && u < |g.succs| ==> SuccessorsIn(g, u, 0, seen)
    ensures p[|p| - 1] in seen
    decreases |p|
  {
    if |p| == 1 {
    } else {
      ClosedHoldsPath(g, seen, p[..|p| - 1]);
      assert Edge(g, p[|p| - 2], p[|p| - 2 + 1]);
      var u := p[|p| - 2];
      var j :| 0 <= j < |g.succs[u]| && g.succs[u][j] == p[|p| - 1];
    }
  }

  lemma {:induction false} ExploreReaches(g: Graph, v: nat, i: nat, seen: set<nat>)
    requires Start(g, v, i, seen) && Reachable(g, v)
    ensures forall u: nat :: u in Explore(g, v, i, seen).seen - seen ==> Reachable(g, u)
    decreases Nodes(g) - seen, |g.succs[v]| - i
  {
    if i == |g.succs[v]| {
    } else {
      var w := g.succs[v][i];
      if w in seen {
        ExploreReaches(g, v, i + 1, seen);
      } else {
        var below := Explore(g, w, 0, seen + {w});
        assert w in Nodes(g) - seen && w !in Nodes(g) - below.seen;
        ReachableEdge(g, v, w);
        ExploreReaches(g, w, 0, seen + {w});
        ExploreReaches(g, v, i + 1, below.seen);
      }
    }
  }

  /** The exploration of the whole graph visits exactly the reachable nodes. */
  lemma ExploreAllReachable(g: Graph)
    requires WellFormed(g)
    ensures forall v: nat :: v in ExploreAll(g).seen <==> Reachable(g, v)
  {
    assert PathTo(g, [g.header], g.header);
    ExploreReaches(g, g.header, 0, {g.header});
    ExploreCloses(g, g.header, 0, {g.header});
    var seen := ExploreAll(g).seen;
    forall v: nat | Reachable(g, v)
      ensures v in seen
    {
      var p :| PathTo(g, p, v);
      ClosedHoldsPath(g, seen, p);
    }
  }

  // ------------------------------------------------- number of tree edges

  lemma TreeSize(g: Graph)
    requires WellFormed(g)
    ensures |ExploreAll(g).tree| == |ExploreAll(g).seen| - 1
    ensures |ExploreAll(g).tree| <= |g.succs| - 1
  {
    var r := ExploreAll(g);
    ExploreTree(g, g.header, 0, {g.header});
    ChildCount(r.tree);
    var children := set k: nat | k < |r.tree| :: r.tree[k].target;
    assert r.seen == children + {g.header} by {
      forall u: nat
        ensures u in r.seen <==> u in children + {g.header}
      {
        if IsChild(r.tree, u) {
          var k: nat :| k < |r.tree| && r.tree[k].target == u;
          assert u in children;
        }
      }
    }
    SubsetSize(r.seen, Nodes(g));
  }

  lemma {:induction false} ChildCount(tree: seq<Arc>)
    requires DistinctChildren(tree)
    ensures |set k: nat | k < |tree| :: tree[k].target| == |tree|
  {
    var children := set k: nat | k < |tree| :: tree[k].target;
    if tree == [] {
    } else {
      var front := tree[..|tree| - 1];
      var frontChildren := set k: nat | k < |front| :: front[k].target;
      ChildCount(front);
      assert children == frontChildren + {tree[|tree| - 1].target} by {
        forall u | u in children
          ensures u in frontChildren + {tree[|tree| - 1].target}
        {
          var k: nat :| k < |tree| && tree[k].target == u;
          if k < |front| {
            assert front[k].target == u;
          }
        }
        forall u | u in frontChildren
          ensures u in children
        {
          var k: nat :| k < |front| && front[k].target == u;
          assert tree[k].target == u;
        }
      }
    }
  }

  lemma {:induction false} SubsetSize<T>(a: set<T>, b: set<T>)
    requires a <= b
    ensures |a| <= |b|
  {
    if a == {} {
    } else {
      var x :| x in a;
      SubsetSize(a - {x}, b - {x});
    }
  }

  // ---------------------------------------------------- retreating edges

  ghost predicate TreePath(tree: seq<Arc>, p: seq<nat>) {
    |p| > 0 && forall i :: 0 <= i < |p| - 1 ==> Arc(p[i], p[i + 1]) in tree
  }

  /** `a` is `u` or an ancestor of `u` along tree edges. */
  ghost predicate Ancestor(tree: seq<Arc>, a: nat, u: nat) {
    exists p :: TreePath(tree, p) && p[0] == a && p[|p| - 1] == u
  }

  lemma AncestorSelf(tree: seq<Arc>, u: nat)
    ensures Ancestor(tree, u, u)
  {
    assert TreePath(tree, [u]);
  }

  lemma AncestorIn(part: seq<Arc>, tree: seq<Arc>, a: nat, u: nat)
    requires Ancestor(part, a, u) && forall e :: e in part ==> e in tree
    ensures Ancestor(tree, a, u)
  {
  }

  lemma AncestorCons(tree: seq<Arc>, v: nat, a: nat, u: nat)
    requires Arc(v, a) in tree && Ancestor(tree, a, u)
    ensures Ancestor(tree, v, u)
  {
    var p :| TreePath(tree, p) && p[0] == a && p[|p| - 1] == u;
    assert TreePath(tree, [v] + p);
  }

  /** Every newly visited node descends from the root of the exploration. */
  lemma {:induction false} ExploreDescends(g: Graph, v: nat, i: nat, seen: set<nat>)
    requires Start(g, v, i, seen)
    ensures forall k :: 0 <= k < |Explore(g, v, i, seen).tree| ==>
              Ancestor(Explore(g, v, i, seen).tree, v, Explore(g, v, i, seen).tree[k].target)
    decreases Nodes(g) - seen, |g.succs[v]| - i
  {
    if i == |g.succs[v]| {
    } else {
      var w := g.succs[v][i];
      if w in seen {
        ExploreDescends(g, v, i + 1, seen);
      } else {
        var below := Explore(g, w, 0, seen + {w});
        assert w in Nodes(g) - seen && w !in Nodes(g) - below.seen;
        var rest := Explore(g, v, i + 1, below.seen);
        var tree := Explore(g, v, i, seen).tree;
        ExploreDescends(g, w, 0, seen + {w});
        ExploreDescends(g, v, i + 1, below.seen);
        assert tree[|below.tree|] == Arc(v, w);
        forall k | 0 <= k < |tree|
          ensures Ancestor(tree, v, tree[k].target)
        {
          if k < |below.tree| {
            AncestorIn(below.tree, tree, w, tree[k].target);
            AncestorCons(tree, v, w, tree[k].target);
          } else if k == |below.tree| {
            AncestorSelf(tree, w);
            AncestorCons(tree, v, w, w);
          } else {
            assert tree[k] == rest.tree[k - |below.tree| - 1];
            AncestorIn(rest.tree, tree, v, tree[k].target);
          }
        }
      }
    }
  }

  ghost predicate FinishedBefore(tree: seq<Arc>, w: nat, k: int) {
    exists m :: 0 <= m < k && m < |tree| && tree[m].target == w
  }

  /** Every edge out of the `k`-th finished node leads to a node that was already
      visited at the start, is finished before, or is an ancestor. */
  ghost predicate EdgesClassified(g: Graph, seen: set<nat>, tree: seq<Arc>, k: nat)
    requires k < |tree|
  {
    forall w: nat :: Edge(g, tree[k].target, w) ==>
      w in seen || FinishedBefore(tree, w, k) || Ancestor(tree, w, tree[k].target)
  }

  ghost predicate AllClassified(g: Graph, seen: set<nat>, tree: seq<Arc>) {
    forall k :: 0 <= k < |tree| ==> EdgesClassified(g, seen, tree, k)
  }

  lemma {:induction false} ExploreClassifies(g: Graph, v: nat, i: nat, seen: set<nat>)
    requires Start(g, v, i, seen)
    ensures AllClassified(g, seen, Explore(g, v, i, seen).tree)
    decreases Nodes(g) - seen, |g.succs[v]| - i
  {
    if i == |g.succs[v]| {
    } else {
      var w := g.succs[v][i];
      if w in seen {
        ExploreClassifies(g, v, i + 1, seen);
      } else {
        var below := Explore(g, w, 0, seen + {w});
        assert w in Nodes(g) - seen && w !in Nodes(g) - below.seen;
        var rest := Explore(g, v, i + 1, below.seen);
        var tree := Explore(g, v, i, seen).tree;
        ExploreClassifies(g, w, 0, seen + {w});
        ExploreClassifies(g, v, i + 1, below.seen);
        forall k | 0 <= k < |tree|
          ensures EdgesClassified(g, seen, tree, k)
        {
          ClassifiedJoin(g, v, i, seen, k);
        }
      }
    }
  }

  lemma {:induction false} ClassifiedJoin(g: Graph, v: nat, i: nat, seen: set<nat>, k: nat)
    requires Start(g, v, i, seen) && i < |g.succs[v]| && g.succs[v][i] !in seen
    requires k < |Explore(g, v, i, seen).tree|
    requires var w := g.succs[v][i];
             var below := Explore(g, w, 0, seen + {w});
             && AllClassified(g, seen + {w}, below.tree)
             && AllClassified(g, below.seen, Explore(g, v, i + 1, below.seen).tree)
    ensures EdgesClassified(g, seen, Explore(g, v, i, seen).tree, k)
  {
    var w := g.succs[v][i];
    var below := Explore(g, w, 0, seen + {w});
    var rest := Explore(g, v, i + 1, below.seen);
    var tree := Explore(g, v, i, seen).tree;
    var at := |below.tree|;
    assert tree == below.tree + [Arc(v, w)] + rest.tree;
    ExploreTree(g, w, 0, seen + {w});
    ExploreCloses(g, w, 0, seen + {w});
    ExploreDescends(g, w, 0, seen + {w});
    forall x: nat | Edge(g, tree[k].target, x)
      ensures x in seen || FinishedBefore(tree, x, k) || Ancestor(tree, x, tree[k].target)
    {
      if k < at {
        assert EdgesClassified(g, seen + {w}, below.tree, k);
        if x == w {
          AncestorIn(below.tree, tree, w, tree[k].target);
        } else if FinishedBefore(below.tree, x, k) {
          var m :| 0 <= m < k && below.tree[m].target == x;
          assert tree[m].target == x;
        } else if Ancestor(below.tree, x, tree[k].target) {
          AncestorIn(below.tree, tree, x, tree[k].target);
        }
      } else if k == at {
        var j :| 0 <= j < |g.succs[w]| && g.succs[w][j] == x;
        assert x in below.seen;
        BelowFinished(seen, w, below, tree, x, k);
        AncestorSelf(tree, w);
      } else {
        assert tree[k] == rest.tree[k - at - 1];
        assert EdgesClassified(g, below.seen, rest.tree, k - at - 1);
        if x in below.seen {
          assert tree[at].target == w;
          BelowFinished(seen, w, below, tree, x, k);
        } else if FinishedBefore(rest.tree, x, k - at - 1) {
          var m :| 0 <= m < k - at - 1 && rest.tree[m].target == x;
          assert tree[at + 1 + m].target == x;
        } else {
          AncestorIn(rest.tree, tree, x, tree[k].target);
        }
      }
    }
  }

  lemma BelowFinished(seen: set<nat>, w: nat, below: Walk, tree: seq<Arc>, x: nat, k: nat)
    requires below.tree <= tree && |below.tree| <= k && x in below.seen
    requires forall u: nat :: u in below.seen <==> u in seen + {w} || IsChild(below.tree, u)
    ensures x in seen || x == w || FinishedBefore(tree, x, k)
  {
  }
}
