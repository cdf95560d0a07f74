/** The partial dominator tree that the iterative algorithm of Cooper, Harvey and
    Kennedy keeps in the `dominator` pointers, and why its updates are sound and
    converge. Everything here is about values: `num` are the postorder numbers,
    `dom` the dominator pointers (`NULL` where a node is not processed yet). */
module DominatorTree {
  import opened Graphs

  // ------------------------------------------------------------ numbering

  /** Postorder numbers: a bijection onto 0..n-1 with the entry last. */
  ghost predicate Numbering(g: Graph, num: seq<int>) {
    && WellFormed(g)
    && |num| == |g.succs|
    && (forall v :: 0 <= v < |num| ==> 0 <= num[v] < |num|)
    && (forall u, v :: 0 <= u < v < |num| ==> num[u] != num[v])
    && num[g.header] == |num| - 1
  }

  /** Reverse postorder reaches a predecessor of every node before the node. */
  ghost predicate EarlierPredecessors(g: Graph, num: seq<int>)
    requires |num| == |g.succs|
  {
    forall v: nat :: v < |num| && v != g.header ==> HasEarlierPredecessor(g, num, v)
  }

  ghost predicate HasEarlierPredecessor(g: Graph, num: seq<int>, v: nat)
    requires |num| == |g.succs| && v < |num|
  {
    exists u: nat :: Edge(g, u, v) && num[u] > num[v]
  }

  // --------------------------------------------------------------- chains

  ghost predicate Processed(dom: seq<int>, x: nat) {
    x < |dom| && dom[x] != NULL
  }

  /** The pointers of the processed nodes form a tree rooted at the entry, along
      which the numbers grow. */
  ghost predicate Tree(g: Graph, num: seq<int>, dom: seq<int>) {
    && Numbering(g, num)
    && |dom| == |num|
    && dom[g.header] == g.header
    && forall x :: 0 <= x < |dom| && x != g.header && dom[x] != NULL ==>
         0 <= dom[x] < |dom| && num[dom[x]] > num[x] && dom[dom[x]] != NULL
  }

  /** The nodes met from `x` by following dominator pointers up to the entry. */
  ghost function Chain(g: Graph, num: seq<int>, dom: seq<int>, x: nat): (chain: set<nat>)
    requires Tree(g, num, dom) && Processed(dom, x)
    ensures x in chain && g.header in chain
    ensures forall y :: y in chain ==> Processed(dom, y) && num[y] >= num[x]
    decreases |num| - num[x]
  {
    if x == g.header then {x} else {x} + Chain(g, num, dom, dom[x])
  }

  lemma {:induction false} ChainUpper(g: Graph, num: seq<int>, dom: seq<int>, x: nat, y: nat)
    requires Tree(g, num, dom) && Processed(dom, x) && y in Chain(g, num, dom, x)
    ensures Chain(g, num, dom, y) <= Chain(g, num, dom, x)
    decreases |num| - num[x]
  {
    if y == x {
    } else {
      ChainUpper(g, num, dom, dom[x], y);
    }
  }

  // ------------------------------------------------------------ soundness

  ghost predicate Below(num: seq<int>, p: seq<nat>, bound: int) {
    forall i :: 0 <= i < |p| ==> p[i] < |num| && num[p[i]] <= bound
  }

  /** Some path from `y` to `x` meets no node numbered above `y`. */
  ghost predicate LowPath(g: Graph, num: seq<int>, y: nat, x: nat)
    requires y < |num|
  {
    exists p :: PathBetween(g, p, y, x) && Below(num, p, num[y])
  }

  /** What a dominator pointer from `x` to `y` guarantees, whatever happens to the
      other pointers: `y` leads down to `x`, and no strict dominator of `x` is
      skipped. */
  ghost predicate Entry(g: Graph, num: seq<int>, y: nat, x: nat)
    requires y < |num|
  {
    && LowPath(g, num, y, x)
    && forall d: nat :: StrictlyDominates(g, d, x) ==> Dominates(g, d, y)
  }

  ghost predicate Sound(g: Graph, num: seq<int>, dom: seq<int>) {
    && Tree(g, num, dom)
    && forall x: nat :: x < |dom| && x != g.header && dom[x] != NULL ==> Entry(g, num, dom[x], x)
  }

  lemma LowPathConcat(g: Graph, num: seq<int>, z: nat, y: nat, x: nat)
    requires z < |num| && y < |num| && num[y] <= num[z]
    requires LowPath(g, num, z, y) && LowPath(g, num, y, x)
    ensures LowPath(g, num, z, x)
  {
    var p :| PathBetween(g, p, z, y) && Below(num, p, num[z]);
    var q :| PathBetween(g, q, y, x) && Below(num, q, num[y]);
    PathConcat(g, p, q, z, y, x);
    assert Below(num, p + q[1..], num[z]);
  }

  lemma {:induction false} ChainLowPath(g: Graph, num: seq<int>, dom: seq<int>, x: nat, y: nat)
    requires Sound(g, num, dom) && Processed(dom, x) && y in Chain(g, num, dom, x)
    ensures LowPath(g, num, y, x)
    decreases |num| - num[x]
  {
    if y == x {
      assert PathBetween(g, [x], x, x) && Below(num, [x], num[x]);
    } else {
      ChainLowPath(g, num, dom, dom[x], y);
      LowPathConcat(g, num, y, dom[x], x);
    }
  }

  /** In a sound tree every dominator of a processed node is on its chain. */
  lemma {:induction false} ChainHoldsDominators(g: Graph, num: seq<int>, dom: seq<int>, x: nat, d: nat)
    requires Sound(g, num, dom) && Processed(dom, x) && Dominates(g, d, x)
    ensures d in Chain(g, num, dom, x)
    decreases |num| - num[x]
  {
    if x == g.header {
      HeaderDominators(g, d);
    } else if d != x {
      ChainHoldsDominators(g, num, dom, dom[x], d);
    }
  }

  // ----------------------------------------------------------- one update

  ghost predicate ListsPredecessors(g: Graph, preds: seq<nat>, b: nat) {
    forall u: nat :: u in preds <==> Edge(g, u, b)
  }

  /** `z` is the lowest common ancestor of `first` and of the processed nodes among
      the first `j` of `preds`. */
  ghost predicate IsMeet(g: Graph, num: seq<int>, dom: seq<int>, preds: seq<nat>, first: nat, j: nat, z: int)
    requires Tree(g, num, dom) && Processed(dom, first)
    requires j <= |preds|
  {
    && 0 <= z < |dom| && dom[z] != NULL
    && forall d: nat :: d in Chain(g, num, dom, z) <==>
         d in Chain(g, num, dom, first)
         && forall i :: 0 <= i < j && Processed(dom, preds[i]) ==> d in Chain(g, num, dom, preds[i])
  }

  /** The situation in which the loop assigns `z` to the pointer of `b`. */
  ghost predicate Candidate(g: Graph, num: seq<int>, dom: seq<int>, preds: seq<nat>, first: nat, b: nat, z: int) {
    && Sound(g, num, dom) && AllReachable(g) && EarlierPredecessors(g, num)
    && b < |dom| && b != g.header
    && ListsPredecessors(g, preds, b)
    && (forall v: nat :: v < |num| && num[v] > num[b] ==> dom[v] != NULL)
    && first in preds && Processed(dom, first)
    && IsMeet(g, num, dom, preds, first, |preds|, z)
  }

  lemma {:induction false} CandidateOnChains(g: Graph, num: seq<int>, dom: seq<int>, preds: seq<nat>, first: nat,
                                        b: nat, z: nat, u: nat)
    requires Candidate(g, num, dom, preds, first, b, z) && Edge(g, u, b) && Processed(dom, u)
    ensures z in Chain(g, num, dom, u)
  {
    var i :| 0 <= i < |preds| && preds[i] == u;
    assert z in Chain(g, num, dom, z);
  }

  /** The candidate is always numbered above `b`. */
  lemma CandidateAbove(g: Graph, num: seq<int>, dom: seq<int>, preds: seq<nat>, first: nat, b: nat, z: nat)
    requires Candidate(g, num, dom, preds, first, b, z)
    ensures num[z] > num[b]
  {
    assert HasEarlierPredecessor(g, num, b);
    var u: nat :| Edge(g, u, b) && num[u] > num[b];
    CandidateOnChains(g, num, dom, preds, first, b, z, u);
  }

  lemma CandidateLowPath(g: Graph, num: seq<int>, dom: seq<int>, preds: seq<nat>, first: nat, b: nat, z: nat)
    requires Candidate(g, num, dom, preds, first, b, z)
    ensures LowPath(g, num, z, b)
  {
    CandidateAbove(g, num, dom, preds, first, b, z);
    CandidateOnChains(g, num, dom, preds, first, b, z, first);
    ChainLowPath(g, num, dom, first, z);
    var p :| PathBetween(g, p, z, first) && Below(num, p, num[z]);
    PathAppend(g, p, z, first, b);
    assert Below(num, p + [b], num[z]);
  }

  /** A strict dominator `d` of `b` is on the chains of all processed predecessors,
      hence on that of the candidate `z`; a path to `z` around `d` would extend
      below the number of `d` to a predecessor. */
  lemma CandidateKeepsDominators(g: Graph, num: seq<int>, dom: seq<int>, preds: seq<nat>, first: nat, b: nat, z: nat,
                                 d: nat)
    requires Candidate(g, num, dom, preds, first, b, z) && StrictlyDominates(g, d, b)
    ensures Dominates(g, d, z)
  {
    forall i | 0 <= i < |preds| && Processed(dom, preds[i])
      ensures d in Chain(g, num, dom, preds[i])
    {
      StrictDominatorOfPredecessor(g, d, preds[i], b);
      ChainHoldsDominators(g, num, dom, preds[i], d);
    }
    var k :| 0 <= k < |preds| && preds[k] == first;
    assert d in Chain(g, num, dom, z);
    if d != z {
      CandidateOnChains(g, num, dom, preds, first, b, z, first);
      ChainLowPath(g, num, dom, first, z);
      StrictDominatorOfPredecessor(g, d, first, b);
      var q :| PathBetween(g, q, z, first) && Below(num, q, num[z]);
      assert d !in q;
      forall p | PathTo(g, p, z)
        ensures d in p
      {
        PathConcat(g, p, q, g.header, z, first);
        assert PathTo(g, p + q[1..], first);
      }
    } else {
      forall p | PathTo(g, p, z)
        ensures d in p
      {
        assert p[|p| - 1] == d;
      }
    }
  }

  /** The new pointer keeps all pointers sound. */
  lemma UpdateSound(g: Graph, num: seq<int>, dom: seq<int>, preds: seq<nat>, first: nat, b: nat, z: nat)
    requires Candidate(g, num, dom, preds, first, b, z)
    ensures Sound(g, num, dom[b := z])
  {
    CandidateAbove(g, num, dom, preds, first, b, z);
    CandidateLowPath(g, num, dom, preds, first, b, z);
    forall d: nat | StrictlyDominates(g, d, b)
      ensures Dominates(g, d, z)
    {
      CandidateKeepsDominators(g, num, dom, preds, first, b, z, d);
    }
    var dom' := dom[b := z];
    assert Tree(g, num, dom');
    forall x: nat | x < |dom'| && x != g.header && dom'[x] != NULL
      ensures Entry(g, num, dom'[x], x)
    {
      if x != b {
        assert Entry(g, num, dom[x], x);
      }
    }
  }

  /** After every single assignment of the loop the chain of every processed node,
      also those of the tree descendants of `b`, still holds all its dominators. */
  lemma {:induction false} UpdateKeepsDominators(g: Graph, num: seq<int>, dom: seq<int>, preds: seq<nat>, first: nat,
                                        b: nat, z: nat, x: nat, d: nat)
    requires Candidate(g, num, dom, preds, first, b, z)
    requires Processed(dom[b := z], x) && Dominates(g, d, x)
    ensures Sound(g, num, dom[b := z]) && d in Chain(g, num, dom[b := z], x)
  {
    UpdateSound(g, num, dom, preds, first, b, z);
    ChainHoldsDominators(g, num, dom[b := z], x, d);
  }

  // ---------------------------------------------------- retreating edges

  /** How many edges of the path do not lead to a smaller number. */
  ghost function Retreats(num: seq<int>, p: seq<nat>): nat
    requires forall i :: 0 <= i < |p| ==> p[i] < |num|
  {
    if |p| <= 1 then 0
    else
      Retreats(num, p[..|p| - 1]) + if num[p[|p| - 1]] >= num[p[|p| - 2]] then 1 else 0
  }

  lemma {:induction false} RetreatsPrefix(num: seq<int>, p: seq<nat>, k: nat)
    requires (forall i :: 0 <= i < |p| ==> p[i] < |num|) && k <= |p|
    ensures Retreats(num, p[..k]) <= Retreats(num, p)
    decreases |p|
  {
    if k == |p| {
      assert p[..k] == p;
    } else if |p| > 1 {
      RetreatsPrefix(num, p[..|p| - 1], k);
      assert p[..|p| - 1][..k] == p[..k];
    }
  }

  lemma {:induction false} RetreatsBound(num: seq<int>, p: seq<nat>)
    requires (forall i :: 0 <= i < |p| ==> p[i] < |num|) && |p| > 0
    ensures Retreats(num, p) <= |p| - 1
  {
    if |p| == 1 {
    } else {
      RetreatsBound(num, p[..|p| - 1]);
    }
  }

  /** `a` lies on every path from the entry to `b` with at most `k` retreating edges. */
  ghost predicate OnShallowPaths(g: Graph, num: seq<int>, k: int, a: nat, b: nat)
    requires |num| == |g.succs|
  {
    forall p :: PathTo(g, p, b) && Retreats(num, p) <= k ==> a in p
  }

  lemma ShallowTransitive(g: Graph, num: seq<int>, k: int, a: nat, b: nat, c: nat)
    requires |num| == |g.succs|
    requires OnShallowPaths(g, num, k, a, b) && OnShallowPaths(g, num, k, b, c)
    ensures OnShallowPaths(g, num, k, a, c)
  {
    forall p | PathTo(g, p, c) && Retreats(num, p) <= k
      ensures a in p
    {
      var i :| 0 <= i < |p| && p[i] == b;
      PathPrefix(g, p, g.header, c, i);
      RetreatsPrefix(num, p, i + 1);
      assert PathTo(g, p[..i + 1], b);
    }
  }

  /** All pointers on the chain of `x` from number `low` on point to nodes that lie
      on the paths with at most `k` retreating edges. */
  ghost predicate ShallowFrom(g: Graph, num: seq<int>, dom: seq<int>, k: int, low: int)
    requires Tree(g, num, dom)
  {
    forall x: nat :: x < |dom| && x != g.header && dom[x] != NULL && num[x] >= low ==>
      OnShallowPaths(g, num, k, dom[x], x)
  }

  lemma {:induction false} ChainShallow(g: Graph, num: seq<int>, dom: seq<int>, k: int, low: int, x: nat, y: nat)
    requires Tree(g, num, dom) && ShallowFrom(g, num, dom, k, low)
    requires Processed(dom, x) && num[x] >= low && y in Chain(g, num, dom, x)
    ensures OnShallowPaths(g, num, k, y, x)
    decreases |num| - num[x]
  {
    if y == x {
      forall p | PathTo(g, p, x)
        ensures y in p
      {
        assert p[|p| - 1] == y;
      }
    } else {
      ChainShallow(g, num, dom, k, low, dom[x], y);
      ShallowTransitive(g, num, k, y, dom[x], x);
    }
  }

  /** A path `q` to a predecessor `u` of `b`, with one retreating edge less than `k` if
      the edge from `u` to `b` is one. */
  lemma {:induction false} CandidateShallow(g: Graph, num: seq<int>, dom: seq<int>, preds: seq<nat>, first: nat,
                                        b: nat, z: nat, k: nat, q: seq<nat>, u: nat)
    requires Candidate(g, num, dom, preds, first, b, z)
    requires ShallowFrom(g, num, dom, k, num[b] + 1)
    requires k > 0 ==> ShallowFrom(g, num, dom, k - 1, 0) && forall v: nat :: v < |dom| ==> dom[v] != NULL
    requires Edge(g, u, b) && PathTo(g, q, u)
    requires Retreats(num, q) <= if num[b] >= num[u] then k - 1 else k
    ensures z in q
  {
    CandidateOnChains(g, num, dom, preds, first, b, z, u);
    if num[u] > num[b] {
      ChainShallow(g, num, dom, k, num[b] + 1, u, z);
    } else {
      ChainShallow(g, num, dom, k - 1, 0, u, z);
    }
  }

  /** In the pass that starts with all pointers good for `k - 1` retreating edges, a
      new pointer is good for `k`: an advancing last edge comes from a node that
      was processed in this pass, a retreating one uses up one retreat. */
  lemma UpdateShallow(g: Graph, num: seq<int>, dom: seq<int>, preds: seq<nat>, first: nat, b: nat, z: nat, k: nat)
    requires Candidate(g, num, dom, preds, first, b, z)
    requires ShallowFrom(g, num, dom, k, num[b] + 1)
    requires k > 0 ==> ShallowFrom(g, num, dom, k - 1, 0) && forall v: nat :: v < |dom| ==> dom[v] != NULL
    ensures OnShallowPaths(g, num, k, z, b)
  {
    forall p | PathTo(g, p, b) && Retreats(num, p) <= k
      ensures z in p
    {
      var q := p[..|p| - 1];
      var u := p[|p| - 2];
      assert Edge(g, u, p[|p| - 2 + 1]);
      PathPrefix(g, p, g.header, b, |p| - 2);
      CandidateShallow(g, num, dom, preds, first, b, z, k, q, u);
    }
  }

  // ----------------------------------------------------------- exactness

  /** Paths with at most `k` retreating edges are enough to refute dominance. */
  ghost predicate Settles(g: Graph, num: seq<int>, k: int)
    requires |num| == |g.succs|
  {
    forall a: nat, b: nat :: OnShallowPaths(g, num, k, a, b) ==> Dominates(g, a, b)
  }

  /** The classical measure: no path from the entry without repeated nodes has more than
      `k` retreating edges. */
  ghost predicate SimplePathsRetreat(g: Graph, num: seq<int>, k: int)
    requires |num| == |g.succs|
  {
    forall p: seq<nat>, b: nat :: PathTo(g, p, b) && Distinct(p) ==> Retreats(num, p) <= k
  }

  lemma SettlesSimplePaths(g: Graph, num: seq<int>, k: int)
    requires WellFormed(g) && |num| == |g.succs| && SimplePathsRetreat(g, num, k)
    ensures Settles(g, num, k)
  {
    forall a: nat, b: nat | OnShallowPaths(g, num, k, a, b)
      ensures Dominates(g, a, b)
    {
      forall p | PathTo(g, p, b)
        ensures a in p
      {
        var q := Shortcut(g, p, g.header, b);
        assert PathTo(g, q, b);
      }
    }
  }

  lemma SettlesAtSize(g: Graph, num: seq<int>)
    requires Numbering(g, num)
    ensures Settles(g, num, |g.succs| - 1)
  {
    forall p: seq<nat>, b: nat | PathTo(g, p, b) && Distinct(p)
      ensures Retreats(num, p) <= |g.succs| - 1
    {
      DistinctLength(p, |g.succs|);
      RetreatsBound(num, p);
    }
    SettlesSimplePaths(g, num, |g.succs| - 1);
  }

  ghost predicate Topological(g: Graph, num: seq<int>)
    requires |num| == |g.succs|
  {
    forall u: nat, v: nat :: Edge(g, u, v) ==> num[v] < num[u]
  }

  lemma {:induction false} TopologicalPath(g: Graph, num: seq<int>, p: seq<nat>)
    requires |num| == |g.succs| && Topological(g, num) && Path(g, p)
    ensures Retreats(num, p) == 0
  {
    if |p| == 1 {
    } else {
      TopologicalPath(g, num, p[..|p| - 1]);
      assert Edge(g, p[|p| - 2], p[|p| - 2 + 1]);
    }
  }

  lemma SettlesTopological(g: Graph, num: seq<int>)
    requires |num| == |g.succs| && Topological(g, num)
    ensures Settles(g, num, 0)
  {
    forall a: nat, b: nat | OnShallowPaths(g, num, 0, a, b)
      ensures Dominates(g, a, b)
    {
      forall p | PathTo(g, p, b)
        ensures a in p
      {
        TopologicalPath(g, num, p);
      }
    }
  }

  /** A sound pointer that lies on enough paths is the immediate dominator. */
  lemma SettledPointer(g: Graph, num: seq<int>, k: int, y: nat, x: nat)
    requires |num| == |g.succs| && y < |num| && x < |num| && num[y] > num[x]
    requires Settles(g, num, k) && OnShallowPaths(g, num, k, y, x) && Entry(g, num, y, x)
    ensures ImmediateDominator(g, y, x)
  {
  }

  /** Once all pointers are settled, a pass changes nothing. */
  lemma SettledUpdate(g: Graph, num: seq<int>, dom: seq<int>, preds: seq<nat>, first: nat, b: nat, z: nat, k: nat)
    requires Candidate(g, num, dom, preds, first, b, z)
    requires Settles(g, num, k) && OnShallowPaths(g, num, k, z, b)
    requires ShallowFrom(g, num, dom, k, 0) && dom[b] != NULL
    ensures dom[b] == z
  {
    UpdateSound(g, num, dom, preds, first, b, z);
    CandidateAbove(g, num, dom, preds, first, b, z);
    assert dom[b := z][b] == z;
    SettledPointer(g, num, k, z, b);
    SettledPointer(g, num, k, dom[b], b);
    ImmediateDominatorUnique(g, z, dom[b], b);
  }

  ghost predicate Complete(dom: seq<int>) {
    forall v: nat :: v < |dom| ==> dom[v] != NULL
  }

  /** No pointer would change: each lies on the chains of all predecessors. */
  ghost predicate FixedAt(g: Graph, num: seq<int>, dom: seq<int>, b: nat)
    requires Tree(g, num, dom) && Processed(dom, b)
  {
    forall u: nat :: Edge(g, u, b) && Processed(dom, u) ==> dom[b] in Chain(g, num, dom, u)
  }

  ghost predicate Fixed(g: Graph, num: seq<int>, dom: seq<int>) {
    && Tree(g, num, dom) && Complete(dom)
    && forall b: nat :: b < |dom| && b != g.header ==> FixedAt(g, num, dom, b)
  }

  lemma {:induction false} FixedChainOnPath(g: Graph, num: seq<int>, dom: seq<int>, p: seq<nat>, x: nat)
    requires Fixed(g, num, dom) && PathTo(g, p, x)
    ensures forall y :: y in Chain(g, num, dom, x) ==> y in p
    decreases |p|
  {
    if x == g.header {
    } else {
      var u := p[|p| - 2];
      assert Edge(g, u, p[|p| - 2 + 1]);
      PathPrefix(g, p, g.header, x, |p| - 2);
      FixedChainOnPath(g, num, dom, p[..|p| - 1], u);
      assert FixedAt(g, num, dom, x);
      assert dom[x] in Chain(g, num, dom, u);
      ChainUpper(g, num, dom, u, dom[x]);
      assert p[|p| - 1] == x;
    }
  }

  /** What the algorithm is for: the chain of a node is the set of its dominators,
      and its pointer is its immediate dominator. */
  ghost predicate Exact(g: Graph, num: seq<int>, dom: seq<int>) {
    && Tree(g, num, dom) && Complete(dom)
    && (forall x: nat, d: nat :: x < |dom| ==> (d in Chain(g, num, dom, x) <==> Dominates(g, d, x)))
    && (forall x: nat :: x < |dom| && x != g.header ==> ImmediateDominator(g, dom[x], x))
  }

  lemma FixedIsExact(g: Graph, num: seq<int>, dom: seq<int>)
    requires Sound(g, num, dom) && Fixed(g, num, dom)
    ensures Exact(g, num, dom)
  {
    forall x: nat, d: nat | x < |dom|
      ensures d in Chain(g, num, dom, x) <==> Dominates(g, d, x)
    {
      if Dominates(g, d, x) {
        ChainHoldsDominators(g, num, dom, x, d);
      }
      if d in Chain(g, num, dom, x) {
        forall p | PathTo(g, p, x)
          ensures d in p
        {
          FixedChainOnPath(g, num, dom, p, x);
        }
      }
    }
    forall x: nat | x < |dom| && x != g.header
      ensures ImmediateDominator(g, dom[x], x)
    {
      assert dom[x] in Chain(g, num, dom, dom[x]);
      assert dom[x] in Chain(g, num, dom, x);
    }
  }

  // -------------------------------------------------------------- passes

  lemma ShallowWeaken(g: Graph, num: seq<int>, k: int, m: int, a: nat, b: nat)
    requires |num| == |g.succs| && m <= k && OnShallowPaths(g, num, k, a, b)
    ensures OnShallowPaths(g, num, m, a, b)
  {
  }

  lemma SettlesMonotone(g: Graph, num: seq<int>, k: int, m: int)
    requires |num| == |g.succs| && k <= m && Settles(g, num, k)
    ensures Settles(g, num, m)
  {
  }

  /** After `k` complete passes, with the first `i` nodes of reverse postorder done in
      the current one: all pointers are good for `k - 1` retreating edges, those
      visited in this pass for `k`. */
  ghost predicate InPass(g: Graph, num: seq<int>, dom: seq<int>, k: nat, i: int) {
    && Sound(g, num, dom)
    && (forall v: nat :: v < |num| && num[v] > |num| - 1 - i ==> dom[v] != NULL)
    && (k > 0 ==> Complete(dom) && ShallowFrom(g, num, dom, k - 1, 0))
    && ShallowFrom(g, num, dom, k, |num| - i)
  }

  /** The state after initialisation of the entry is the start of the first pass. */
  lemma FirstPass(g: Graph, num: seq<int>, dom: seq<int>)
    requires Numbering(g, num) && |dom| == |num| && dom[g.header] == g.header
    requires forall v :: 0 <= v < |dom| && v != g.header ==> dom[v] == NULL
    ensures InPass(g, num, dom, 0, 1)
  {
  }

  lemma NextPass(g: Graph, num: seq<int>, dom: seq<int>, k: nat)
    requires InPass(g, num, dom, k, |num|)
    ensures InPass(g, num, dom, k + 1, 1)
  {
  }

  lemma PassStep(g: Graph, num: seq<int>, dom: seq<int>, preds: seq<nat>, first: nat, b: nat, z: nat, k: nat, i: int)
    requires InPass(g, num, dom, k, i) && Candidate(g, num, dom, preds, first, b, z)
    requires num[b] == |num| - 1 - i
    ensures InPass(g, num, dom[b := z], k, i + 1)
  {
    UpdateSound(g, num, dom, preds, first, b, z);
    UpdateShallow(g, num, dom, preds, first, b, z, k);
    ShallowUpdate(g, num, dom, b, z, k, |num| - i, |num| - i - 1);
    if k > 0 {
      PassStepEarlier(g, num, dom, b, z, k);
    }
    PassStepProcessed(g, num, dom, b, z, i);
  }

  lemma PassStepEarlier(g: Graph, num: seq<int>, dom: seq<int>, b: nat, z: nat, k: nat)
    requires Tree(g, num, dom) && b < |dom| && Tree(g, num, dom[b := z])
    requires k > 0 && Complete(dom) && ShallowFrom(g, num, dom, k - 1, 0) && OnShallowPaths(g, num, k, z, b)
    ensures Complete(dom[b := z]) && ShallowFrom(g, num, dom[b := z], k - 1, 0)
  {
  }

  lemma PassStepProcessed(g: Graph, num: seq<int>, dom: seq<int>, b: nat, z: nat, i: int)
    requires Numbering(g, num) && |dom| == |num| && b < |num| && num[b] == |num| - 1 - i
    requires forall v: nat :: v < |num| && num[v] > |num| - 1 - i ==> dom[v] != NULL
    ensures forall v: nat :: v < |num| && num[v] > |num| - 1 - (i + 1) ==> dom[b := z][v] != NULL
  {
  }

  /** Assigning a pointer leaves the guarantees of the other pointers alone. */
  lemma ShallowUpdate(g: Graph, num: seq<int>, dom: seq<int>, b: nat, z: nat, k: int, from: int, low: int)
    requires Tree(g, num, dom) && b < |dom| && Tree(g, num, dom[b := z])
    requires low == from || low == num[b] == from - 1
    requires ShallowFrom(g, num, dom, k, from) && OnShallowPaths(g, num, k, z, b)
    ensures ShallowFrom(g, num, dom[b := z], k, low)
  {
  }

  /** From the pass after the `k`-th settled one on, no pointer changes. */
  lemma PassStepSettled(g: Graph, num: seq<int>, dom: seq<int>, preds: seq<nat>, first: nat, b: nat, z: nat,
                        k: nat, i: int, settled: nat)
    requires InPass(g, num, dom, k, i) && Candidate(g, num, dom, preds, first, b, z)
    requires num[b] == |num| - 1 - i
    requires Settles(g, num, settled) && settled < k
    ensures dom[b] == z
  {
    UpdateShallow(g, num, dom, preds, first, b, z, k);
    ShallowWeaken(g, num, k, k - 1, z, b);
    SettlesMonotone(g, num, settled, k - 1);
    SettledUpdate(g, num, dom, preds, first, b, z, k - 1);
  }

  /** The nodes done so far in a pass without changes are fixed. */
  ghost predicate FixedFrom(g: Graph, num: seq<int>, dom: seq<int>, low: int)
    requires Tree(g, num, dom)
  {
    forall b: nat :: b < |dom| && b != g.header && num[b] >= low ==>
      dom[b] != NULL && FixedAt(g, num, dom, b)
  }

  lemma FixedStep(g: Graph, num: seq<int>, dom: seq<int>, preds: seq<nat>, first: nat, b: nat, z: nat)
    requires Candidate(g, num, dom, preds, first, b, z)
    requires dom[b] == z && FixedFrom(g, num, dom, num[b] + 1)
    ensures FixedFrom(g, num, dom, num[b])
  {
    CandidateFixed(g, num, dom, preds, first, b, z);
    forall x: nat | x < |dom| && x != g.header && num[x] >= num[b]
      ensures dom[x] != NULL && FixedAt(g, num, dom, x)
    {
      assert num[x] == num[b] ==> x == b;
    }
  }

  lemma CandidateFixed(g: Graph, num: seq<int>, dom: seq<int>, preds: seq<nat>, first: nat, b: nat, z: nat)
    requires Candidate(g, num, dom, preds, first, b, z) && dom[b] == z
    ensures FixedAt(g, num, dom, b)
  {
    forall u: nat | Edge(g, u, b) && Processed(dom, u)
      ensures dom[b] in Chain(g, num, dom, u)
    {
      CandidateOnChains(g, num, dom, preds, first, b, z, u);
    }
  }

  // ---------------------------------------------------------- intersection

  /** Two fingers whose common ancestors are `common`. */
  ghost predicate Fingers(g: Graph, num: seq<int>, dom: seq<int>, f1: nat, f2: nat, common: set<nat>)
    requires Tree(g, num, dom)
  {
    && Processed(dom, f1) && Processed(dom, f2)
    && Chain(g, num, dom, f1) * Chain(g, num, dom, f2) == common
  }

  /** Moving the finger with the smaller number up keeps the common ancestors. */
  lemma {:induction false} FingerUp(g: Graph, num: seq<int>, dom: seq<int>, f1: nat, f2: nat, common: set<nat>)
    requires Tree(g, num, dom) && Fingers(g, num, dom, f1, f2, common) && num[f1] < num[f2]
    ensures 0 <= dom[f1] < |dom| && num[dom[f1]] > num[f1] && Fingers(g, num, dom, dom[f1], f2, common)
  {
  }

  lemma FingersSwap(g: Graph, num: seq<int>, dom: seq<int>, f1: nat, f2: nat, common: set<nat>)
    requires Tree(g, num, dom) && Fingers(g, num, dom, f1, f2, common)
    ensures Fingers(g, num, dom, f2, f1, common)
  {
    assert Chain(g, num, dom, f2) * Chain(g, num, dom, f1) == Chain(g, num, dom, f1) * Chain(g, num, dom, f2);
  }

  lemma OtherFingerUp(g: Graph, num: seq<int>, dom: seq<int>, f1: nat, f2: nat, common: set<nat>)
    requires Tree(g, num, dom) && Fingers(g, num, dom, f1, f2, common) && num[f1] > num[f2]
    ensures 0 <= dom[f2] < |dom| && num[dom[f2]] > num[f2] && Fingers(g, num, dom, f1, dom[f2], common)
  {
    FingersSwap(g, num, dom, f1, f2, common);
    FingerUp(g, num, dom, f2, f1, common);
    FingersSwap(g, num, dom, dom[f2], f1, common);
  }

  lemma {:induction false} FingersMeet(g: Graph, num: seq<int>, dom: seq<int>, f1: nat, f2: nat, common: set<nat>)
    requires Tree(g, num, dom) && Fingers(g, num, dom, f1, f2, common) && num[f1] == num[f2]
    ensures f1 == f2 && Chain(g, num, dom, f1) == common
  {
  }

  lemma {:induction false} MeetStep(g: Graph, num: seq<int>, dom: seq<int>, preds: seq<nat>, first: nat, j: nat,
                                    z: nat, r: nat)
    requires Tree(g, num, dom) && Processed(dom, first) && j < |preds|
    requires IsMeet(g, num, dom, preds, first, j, z)
    requires Processed(dom, preds[j]) && Processed(dom, r)
    requires Chain(g, num, dom, r) == Chain(g, num, dom, preds[j]) * Chain(g, num, dom, z)
    ensures IsMeet(g, num, dom, preds, first, j + 1, r)
  {
  }

  lemma MeetSkip(g: Graph, num: seq<int>, dom: seq<int>, preds: seq<nat>, first: nat, j: nat, z: nat)
    requires Tree(g, num, dom) && Processed(dom, first) && j < |preds|
    requires IsMeet(g, num, dom, preds, first, j, z) && !Processed(dom, preds[j])
    ensures IsMeet(g, num, dom, preds, first, j + 1, z)
  {
  }
}
