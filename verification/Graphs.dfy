/** Directed graphs with an entry node, their paths, and dominance.
    Nodes are positions in the node array, as every Node pointer of the program
    points into that array. */
module Graphs {

  /** The index that stands for a null pointer. */
  const NULL := -1

  datatype Graph = Graph(succs: seq<seq<nat>>, header: nat)

  /** A recorded edge. */
  datatype Arc = Arc(start: nat, target: nat)

  ghost predicate WellFormed(g: Graph) {
    && g.header < |g.succs|
    && forall u, i :: 0 <= u < |g.succs| && 0 <= i < |g.succs[u]| ==> g.succs[u][i] < |g.succs|
  }

  ghost predicate Edge(g: Graph, u: nat, v: nat) {
    u < |g.succs| && v < |g.succs| && v in g.succs[u]
  }

  ghost predicate Path(g: Graph, p: seq<nat>) {
    && |p| > 0
    && (forall i :: 0 <= i < |p| ==> p[i] < |g.succs|)
    && forall i :: 0 <= i < |p| - 1 ==> Edge(g, p[i], p[i + 1])
  }

  ghost predicate PathBetween(g: Graph, p: seq<nat>, u: nat, v: nat) {
    Path(g, p) && p[0] == u && p[|p| - 1] == v
  }

  /** `p` leads from the entry of the graph to `v`. */
  ghost predicate PathTo(g: Graph, p: seq<nat>, v: nat) {
    PathBetween(g, p, g.header, v)
  }

  ghost predicate Reachable(g: Graph, v: nat) {
    exists p :: PathTo(g, p, v)
  }

  ghost predicate AllReachable(g: Graph) {
    forall v :: 0 <= v < |g.succs| ==> Reachable(g, v)
  }

  /** Every path from the entry to `b` goes through `a`. */
  ghost predicate Dominates(g: Graph, a: nat, b: nat) {
    forall p :: PathTo(g, p, b) ==> a in p
  }

  ghost predicate StrictlyDominates(g: Graph, a: nat, b: nat) {
    a != b && Dominates(g, a, b)
  }

  /** `i` strictly dominates `b`, and every strict dominator of `b` dominates `i`. */
  ghost predicate ImmediateDominator(g: Graph, i: nat, b: nat) {
    && StrictlyDominates(g, i, b)
    && forall d: nat :: StrictlyDominates(g, d, b) ==> Dominates(g, d, i)
  }

  /** The graph has no path from a node back to itself with at least one edge. */
  ghost predicate Acyclic(g: Graph) {
    forall p: seq<nat> :: Path(g, p) && |p| > 1 ==> p[0] != p[|p| - 1]
  }

  // ---------------------------------------------------------------- paths

  lemma PathAppend(g: Graph, p: seq<nat>, u: nat, v: nat, w: nat)
    requires PathBetween(g, p, u, v) && Edge(g, v, w)
    ensures PathBetween(g, p + [w], u, w)
  {
  }

  lemma PathConcat(g: Graph, p: seq<nat>, q: seq<nat>, u: nat, v: nat, w: nat)
    requires PathBetween(g, p, u, v) && PathBetween(g, q, v, w)
    ensures PathBetween(g, p + q[1..], u, w)
    ensures forall x :: x in p + q[1..] <==> x in p || x in q
  {
  }

  lemma PathPrefix(g: Graph, p: seq<nat>, u: nat, v: nat, k: nat)
    requires PathBetween(g, p, u, v) && k < |p|
    ensures PathBetween(g, p[..k + 1], u, p[k])
  {
  }

  lemma PathSuffix(g: Graph, p: seq<nat>, u: nat, v: nat, k: nat)
    requires PathBetween(g, p, u, v) && k < |p|
    ensures PathBetween(g, p[k..], p[k], v)
  {
  }

  lemma ReachableEdge(g: Graph, u: nat, v: nat)
    requires Reachable(g, u) && Edge(g, u, v)
    ensures Reachable(g, v)
  {
    var p :| PathTo(g, p, u);
    PathAppend(g, p, g.header, u, v);
    assert PathTo(g, p + [v], v);
  }

  ghost predicate Distinct(p: seq<nat>) {
    forall i, j :: 0 <= i < j < |p| ==> p[i] != p[j]
  }

  /** A duplicate-free list of numbers below `n` has at most `n` elements. */
  lemma {:induction false} DistinctLength(p: seq<nat>, n: nat)
    requires Distinct(p) && forall i :: 0 <= i < |p| ==> p[i] < n
    ensures |p| <= n
    decreases n
  {
    if n == 0 {
    } else if n - 1 in p {
      var k :| 0 <= k < |p| && p[k] == n - 1;
      DistinctLength(p[..k] + p[k + 1..], n - 1);
    } else {
      DistinctLength(p, n - 1);
    }
  }

  /** Cutting out the cycles of a path leaves a path over the same nodes that
      visits none of them twice. */
  lemma {:induction false} Shortcut(g: Graph, p: seq<nat>, u: nat, v: nat) returns (q: seq<nat>)
    requires PathBetween(g, p, u, v)
    ensures PathBetween(g, q, u, v) && Distinct(q)
    ensures forall x :: x in q ==> x in p
    decreases |p|
  {
    if Distinct(p) {
      q := p;
    } else {
      var i, j :| 0 <= i < j < |p| && p[i] == p[j];
      PathPrefix(g, p, u, v, i);
      PathSuffix(g, p, u, v, j);
      PathConcat(g, p[..i + 1], p[j..], u, p[i], v);
      q := Shortcut(g, p[..i + 1] + p[j..][1..], u, v);
    }
  }

  // ------------------------------------------------------------ dominance

  /** A strict dominator of `b` dominates every predecessor of `b`. */
  lemma StrictDominatorOfPredecessor(g: Graph, d: nat, p: nat, b: nat)
    requires StrictlyDominates(g, d, b) && Edge(g, p, b)
    ensures Dominates(g, d, p)
  {
    forall q | PathTo(g, q, p)
      ensures d in q
    {
      PathAppend(g, q, g.header, p, b);
      assert d in q + [b];
    }
  }

  /** The first of the two nodes on a path is reached without the other. */
  lemma DominatesAntisymmetric(g: Graph, a: nat, b: nat)
    requires Dominates(g, a, b) && Dominates(g, b, a) && Reachable(g, b)
    ensures a == b
  {
    var p :| PathTo(g, p, b);
    var k := FirstOf(p, a, b);
    PathPrefix(g, p, g.header, b, k);
    assert PathTo(g, p[..k + 1], p[k]);
  }

  lemma FirstOf(p: seq<nat>, a: nat, b: nat) returns (k: nat)
    requires b in p
    ensures k < |p| && (p[k] == a || p[k] == b)
    ensures forall i :: 0 <= i < k ==> p[i] != a && p[i] != b
  {
    k := 0;
    while p[k] != a && p[k] != b
      invariant k < |p| && b in p[k..]
      invariant forall i :: 0 <= i < k ==> p[i] != a && p[i] != b
      decreases |p| - k
    {
      k := k + 1;
    }
  }

  /** A node has at most one immediate dominator. */
  lemma ImmediateDominatorUnique(g: Graph, i: nat, j: nat, b: nat)
    requires ImmediateDominator(g, i, b) && ImmediateDominator(g, j, b)
    requires Reachable(g, b)
    ensures i == j
  {
    var p :| PathTo(g, p, b);
    assert j in p;
    var k :| 0 <= k < |p| && p[k] == j;
    PathPrefix(g, p, g.header, b, k);
    assert PathTo(g, p[..k + 1], j);
    DominatesAntisymmetric(g, i, j);
  }

  /** Only the entry dominates the entry. */
  lemma HeaderDominators(g: Graph, d: nat)
    requires WellFormed(g)
    ensures Dominates(g, d, g.header) <==> d == g.header
  {
    if Dominates(g, d, g.header) {
      assert PathTo(g, [g.header], g.header);
    }
  }
}
