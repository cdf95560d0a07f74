/** What the construction of the control-flow graph keeps and achieves, on values. */
module BuildState {
  import opened Graphs
  import opened DepthFirst
  import opened Search
  import opened ControlFlowGraph
  import opened IntermediateRepresentation
  import opened Leaders
  import opened Blocks

  ghost predicate BlocksAre(code: seq<AtomicInstr>, starts: seq<int>, blocks: seq<Block>) {
    && |blocks| == |starts|
    && forall k {:trigger blocks[k]} :: 0 <= k < |starts| ==>
          blocks[k] == Block(starts[k], EndOf(code, starts, k) - starts[k])
  }

  /** All lists are full and in range, and `v` occurs among the successors of `u` as
      often as `u` among the predecessors of `v`. */
  ghost predicate ListsOk(succs: seq<NodeList>, preds: seq<NodeList>) {
    && |succs| == |preds|
    && AllFull(succs) && AllFull(preds)
    && (forall u: nat, v: nat :: u < |succs| && v < |succs| ==>
          multiset(succs[u].items)[v] == multiset(preds[v].items)[u])
    && (forall u: nat, v: nat :: u < |succs| && v in succs[u].items ==> v < |succs|)
    && (forall u: nat, v: nat :: u < |succs| && v in preds[u].items ==> v < |succs|)
  }

  lemma ListsOkInverse(succs: seq<NodeList>, preds: seq<NodeList>)
    requires ListsOk(succs, preds)
    ensures Inverse(Items(succs), Items(preds))
    ensures InRange(Items(succs), |succs|) && InRange(Items(preds), |succs|)
  {
    forall u: nat, v: nat | u < |succs| && v < |succs|
      ensures multiset(Items(succs)[u])[v] == multiset(Items(preds)[v])[u]
    {
      assert multiset(succs[u].items)[v] == multiset(preds[v].items)[u];
    }
    assert forall u, i :: 0 <= u < |succs| && 0 <= i < |succs[u].items| ==> succs[u].items[i] in succs[u].items;
    assert forall u, i :: 0 <= u < |preds| && 0 <= i < |preds[u].items| ==> preds[u].items[i] in preds[u].items;
  }

  function Grow(list: NodeList, slot: nat): NodeList {
    NodeList(list.items + [slot], list.nb + 1, list.idx)
  }

  function Fill(list: NodeList, node: nat): NodeList
    requires list.idx < |list.items|
  {
    NodeList(list.items[list.idx := node], list.nb, list.idx + 1)
  }

  function Push(list: NodeList, node: nat): NodeList {
    NodeList(list.items + [node], list.nb + 1, list.idx + 1)
  }

  /** Pushing `t` on the successors of `u` and `u` on the predecessors of `t` keeps the
      lists inverse to each other, also when the edge is there already. */
  lemma LinkKeepsLists(succs: seq<NodeList>, preds: seq<NodeList>, u: nat, t: nat)
    requires ListsOk(succs, preds) && u < |succs| && t < |succs|
    ensures ListsOk(succs[u := Push(succs[u], t)], preds[t := Push(preds[t], u)])
  {
    var succs' := succs[u := Push(succs[u], t)];
    var preds' := preds[t := Push(preds[t], u)];
    forall a: nat, b: nat | a < |succs| && b < |succs|
      ensures multiset(succs'[a].items)[b] == multiset(preds'[b].items)[a]
    {
      assert multiset(succs[a].items)[b] == multiset(preds[b].items)[a];
      PushCounts(succs, u, t, a, b);
      PushCounts(preds, t, u, b, a);
    }
  }

  lemma PushCounts(lists: seq<NodeList>, u: nat, t: nat, a: nat, b: nat)
    requires u < |lists| && a < |lists|
    ensures multiset(lists[u := Push(lists[u], t)][a].items)[b]
            == multiset(lists[a].items)[b] + if a == u && b == t then 1 else 0
  {
  }

  // ------------------------------------------------------------ exploration

  /** The part of the graph object that the exploration changes. */
  datatype State = State(header: int, vis: seq<bool>, succs: seq<NodeList>, preds: seq<NodeList>, edges: seq<Arc>)

  ghost function Snapshot(cfg: CFG): State
    requires cfg.edgeIdx <= cfg.edges.Length
    reads cfg`header, cfg`edgeIdx, cfg.visited, cfg.successors, cfg.predecessors, cfg.edges
  {
    State(cfg.header, cfg.visited[..], cfg.successors[..], cfg.predecessors[..], cfg.edges[..cfg.edgeIdx])
  }

  ghost predicate Fits(g: Graph, s: State) {
    && WellFormed(g)
    && |s.vis| == |s.succs| == |s.preds| == |g.succs|
    && AllFull(s.succs) && AllFull(s.preds)
  }

  /** Visits `t`; the header is the block at position 0. */
  function Enter(s: State, t: nat): State
    requires t < |s.vis|
  {
    s.(vis := s.vis[t := true], header := if t == 0 then 0 else s.header)
  }

  /** Links `v` to its successor `t`. */
  function LinkTo(s: State, v: nat, t: nat): State
    requires v < |s.succs| && t < |s.preds|
  {
    s.(succs := s.succs[v := Push(s.succs[v], t)], preds := s.preds[t := Push(s.preds[t], v)])
  }

  function AddEdge(s: State, v: nat, t: nat): State {
    s.(edges := s.edges + [Arc(v, t)])
  }

  lemma EnterSet(vis: seq<bool>, t: nat)
    requires t < |vis|
    ensures VisitedSet(vis[t := true]) == VisitedSet(vis) + {t}
  {
  }

  lemma VisitedInNodes(g: Graph, vis: seq<bool>)
    requires |vis| == |g.succs|
    ensures VisitedSet(vis) <= Nodes(g)
  {
  }

  /** What the construction does with the successors of `v` from position `i` on: link
      each of them, explore it if it was not visited, and then record the edge to it. */
  ghost function Build(g: Graph, v: nat, i: nat, s: State): (r: State)
    requires Fits(g, s) && v < |g.succs| && i <= |g.succs[v]|
    ensures Fits(g, r) && VisitedSet(s.vis) <= VisitedSet(r.vis) && s.edges <= r.edges
    decreases Nodes(g) - VisitedSet(s.vis), |g.succs[v]| - i, 0
  {
    if i == |g.succs[v]| then s
    else
      var s' := Branch(g, v, i, s);
      VisitedInNodes(g, s.vis);
      VisitedInNodes(g, s'.vis);
      assert Nodes(g) - VisitedSet(s'.vis) <= Nodes(g) - VisitedSet(s.vis);
      Build(g, v, i + 1, s')
  }

  /** What it does with one successor. */
  ghost function Branch(g: Graph, v: nat, i: nat, s: State): (r: State)
    requires Fits(g, s) && v < |g.succs| && i < |g.succs[v]|
    ensures Fits(g, r) && VisitedSet(s.vis) <= VisitedSet(r.vis) && s.edges <= r.edges
    decreases Nodes(g) - VisitedSet(s.vis), |g.succs[v]| - i - 1, 1
  {
    var t := g.succs[v][i];
    var linked := LinkTo(s, v, t);
    if s.vis[t] then linked
    else
      EnterSet(s.vis, t);
      VisitedInNodes(g, s.vis);
      assert t in Nodes(g) - VisitedSet(s.vis);
      AddEdge(Build(g, t, 0, Enter(linked, t)), v, t)
  }

  /** A block has at most two successors. */
  lemma {:induction false} BuildUnrolled(g: Graph, v: nat, s: State)
    requires Fits(g, s) && v < |g.succs|
    ensures |g.succs[v]| == 0 ==> Build(g, v, 0, s) == s
    ensures |g.succs[v]| == 1 ==> Build(g, v, 0, s) == Branch(g, v, 0, s)
    ensures |g.succs[v]| == 2 ==> Build(g, v, 0, s) == Branch(g, v, 1, Branch(g, v, 0, s))
  {
    if |g.succs[v]| == 2 {
      var s' := Branch(g, v, 0, s);
      assert Build(g, v, 1, s') == Build(g, v, 2, Branch(g, v, 1, s'));
    }
  }

  // ---------------------------------------------- what the construction does

  /** In a state between two steps, the lists are inverse to each other and nodes that
      are not visited have no successors yet. */
  ghost predicate Ok(g: Graph, s: State) {
    Fits(g, s) && ListsOk(s.succs, s.preds) && Untouched(s)
  }

  ghost predicate Untouched(s: State)
    requires |s.vis| == |s.succs|
  {
    forall u :: 0 <= u < |s.vis| && !s.vis[u] ==> s.succs[u] == EMPTY_LIST
  }

  /** Newly visited nodes other than `v` have their full successor lists; the lists of
      all others are as before, and no node gets unvisited. */
  ghost predicate OthersLinked(g: Graph, v: int, s0: State, s: State) {
    && |s0.vis| == |s0.succs| == |s.vis| == |s.succs| == |g.succs|
    && forall u :: 0 <= u < |s.vis| && u != v ==>
         && (s0.vis[u] ==> s.vis[u])
         && if s.vis[u] && !s0.vis[u] then s.succs[u].items == g.succs[u] else s.succs[u] == s0.succs[u]
  }

  ghost predicate HeaderSet(s0: State, s: State) {
    && |s0.vis| == |s.vis| > 0
    && s.header == if s.vis[0] && !s0.vis[0] then 0 else s0.header
  }

  /** The effect of exploring from the successors of `v` from position `i` on. */
  ghost predicate Explored(g: Graph, v: nat, i: nat, s0: State, s: State) {
    && Fits(g, s0) && v < |g.succs| && i <= |g.succs[v]| && s0.vis[v]
    && Fits(g, s) && s.vis[v]
    && VisitedSet(s0.vis) <= Nodes(g)
    && s0.edges <= s.edges
    && Explore(g, v, i, VisitedSet(s0.vis)) == Walk(VisitedSet(s.vis), s.edges[|s0.edges|..])
    && OthersLinked(g, v, s0, s) && s.succs[v].items == s0.succs[v].items + g.succs[v][i..]
    && HeaderSet(s0, s)
  }

  lemma LinkToOk(g: Graph, s: State, v: nat, t: nat)
    requires Ok(g, s) && v < |g.succs| && t < |g.succs| && s.vis[v]
    ensures Ok(g, LinkTo(s, v, t))
  {
    LinkKeepsLists(s.succs, s.preds, v, t);
  }

  /** The construction follows `Explore`: it visits the same nodes, records the same
      tree edges, gives each new node its full successor list, and keeps the lists
      inverse to each other. */
  lemma {:induction false} BuildExplores(g: Graph, v: nat, i: nat, s: State)
    requires Ok(g, s) && v < |g.succs| && i <= |g.succs[v]| && s.vis[v]
    ensures Ok(g, Build(g, v, i, s)) && Explored(g, v, i, s, Build(g, v, i, s))
    decreases Nodes(g) - VisitedSet(s.vis), |g.succs[v]| - i
  {
    VisitedInNodes(g, s.vis);
    if i < |g.succs[v]| {
      var t := g.succs[v][i];
      var linked := LinkTo(s, v, t);
      LinkToOk(g, s, v, t);
      var s1 := Branch(g, v, i, s);
      if s.vis[t] {
        BuildExplores(g, v, i + 1, s1);
        ExploredSkip(g, v, i, s, Build(g, v, i + 1, s1));
      } else {
        EnterSet(s.vis, t);
        assert t in Nodes(g) - VisitedSet(s.vis);
        BuildExplores(g, t, 0, Enter(linked, t));
        var below := Build(g, t, 0, Enter(linked, t));
        assert s1 == AddEdge(below, v, t);
        VisitedInNodes(g, s1.vis);
        BuildExplores(g, v, i + 1, s1);
        ExploredJoin(g, v, i, s, below, Build(g, v, i + 1, s1));
      }
    } else {
      assert g.succs[v][i..] == [];
    }
  }

  lemma SuccessorsFrom(g: Graph, v: nat, i: nat)
    requires v < |g.succs| && i < |g.succs[v]|
    ensures g.succs[v][i..] == [g.succs[v][i]] + g.succs[v][i + 1..]
  {
  }

  lemma ExploredSkip(g: Graph, v: nat, i: nat, s: State, r: State)
    requires Fits(g, s) && Untouched(s) && v < |g.succs| && i < |g.succs[v]| && s.vis[v] && s.vis[g.succs[v][i]]
    requires Explored(g, v, i + 1, LinkTo(s, v, g.succs[v][i]), r)
    ensures Explored(g, v, i, s, r)
  {
    SuccessorsFrom(g, v, i);
    assert g.succs[v][i] in VisitedSet(s.vis);
    SkipLinked(g, v, i, s, r);
  }

  lemma SkipLinked(g: Graph, v: nat, i: nat, s: State, r: State)
    requires Fits(g, s) && v < |g.succs| && i < |g.succs[v]|
    requires OthersLinked(g, v, LinkTo(s, v, g.succs[v][i]), r)
    requires r.succs[v].items == Push(s.succs[v], g.succs[v][i]).items + g.succs[v][i + 1..]
    ensures OthersLinked(g, v, s, r)
    ensures r.succs[v].items == s.succs[v].items + ([g.succs[v][i]] + g.succs[v][i + 1..])
  {
  }

  lemma ExploredJoin(g: Graph, v: nat, i: nat, s: State, below: State, r: State)
    requires Fits(g, s) && Untouched(s) && v < |g.succs| && i < |g.succs[v]| && s.vis[v] && !s.vis[g.succs[v][i]]
    requires var t := g.succs[v][i];
             && Explored(g, t, 0, Enter(LinkTo(s, v, t), t), below)
             && Explored(g, v, i + 1, AddEdge(below, v, t), r)
    ensures Explored(g, v, i, s, r)
  {
    var t := g.succs[v][i];
    EnterSet(s.vis, t);
    SuccessorsFrom(g, v, i);
    JoinLinked(g, v, i, s, below, r);
    JoinOwn(g, v, i, s, below, r);
    JoinWalk(g, v, i, VisitedSet(s.vis), VisitedSet(below.vis), VisitedSet(r.vis), s.edges, below.edges, r.edges);
  }

  lemma {:induction false} JoinWalk(g: Graph, v: nat, i: nat, seen: set<nat>, seen1: set<nat>, seen2: set<nat>,
                 edges: seq<Arc>, edges1: seq<Arc>, edges2: seq<Arc>)
    requires Start(g, v, i, seen) && i < |g.succs[v]| && g.succs[v][i] !in seen && v in seen1
    requires edges <= edges1 && edges1 + [Arc(v, g.succs[v][i])] <= edges2
    requires Explore(g, g.succs[v][i], 0, seen + {g.succs[v][i]}) == Walk(seen1, edges1[|edges|..])
    requires seen1 <= Nodes(g) && Explore(g, v, i + 1, seen1) == Walk(seen2, edges2[|edges1| + 1..])
    ensures Explore(g, v, i, seen) == Walk(seen2, edges2[|edges|..])
  {
    JoinTails(edges, edges1, Arc(v, g.succs[v][i]), edges2);
  }

  lemma JoinTails(edges: seq<Arc>, edges1: seq<Arc>, arc: Arc, edges2: seq<Arc>)
    requires edges <= edges1 && edges1 + [arc] <= edges2
    ensures edges2[|edges|..] == edges1[|edges|..] + [arc] + edges2[|edges1| + 1..]
  {
  }

  lemma JoinOwn(g: Graph, v: nat, i: nat, s: State, below: State, r: State)
    requires Fits(g, s) && v < |g.succs| && i < |g.succs[v]| && s.vis[v] && !s.vis[g.succs[v][i]]
    requires var t := g.succs[v][i];
             OthersLinked(g, t, Enter(LinkTo(s, v, t), t), below) && HeaderSet(Enter(LinkTo(s, v, t), t), below)
    requires OthersLinked(g, v, below, r) && HeaderSet(below, r) && below.vis[g.succs[v][i]]
    requires r.succs[v].items == below.succs[v].items + g.succs[v][i + 1..]
    ensures HeaderSet(s, r)
    ensures r.succs[v].items == s.succs[v].items + ([g.succs[v][i]] + g.succs[v][i + 1..])
  {
  }

  lemma JoinLinked(g: Graph, v: nat, i: nat, s: State, below: State, r: State)
    requires Fits(g, s) && Untouched(s) && v < |g.succs| && i < |g.succs[v]| && s.vis[v] && !s.vis[g.succs[v][i]]
    requires var t := g.succs[v][i];
             && Explored(g, t, 0, Enter(LinkTo(s, v, t), t), below)
             && Explored(g, v, i + 1, AddEdge(below, v, t), r)
    ensures OthersLinked(g, v, s, r)
  {
    var t := g.succs[v][i];
    assert g.succs[t][0..] == g.succs[t];
    forall u | 0 <= u < |s.vis| && u != v
      ensures s.vis[u] ==> r.vis[u]
      ensures if r.vis[u] && !s.vis[u] then r.succs[u].items == g.succs[u] else r.succs[u] == s.succs[u]
    {
      if u == t {
        assert below.succs[t].items == [] + g.succs[t];
      }
    }
  }

  /** The program behind the graph object. */
  ghost predicate Describes(cfg: CFG, code: seq<AtomicInstr>, starts: seq<int>, g: Graph)
    reads cfg.blocks
  {
    && cfg.Valid()
    && Laid(code, starts) && BlocksAre(code, starts, cfg.blocks[..]) && g == BlockGraph(code, starts)
  }

  // ---------------------------------------------------------- the whole graph

  /** The part of `g` that the construction links: unreachable blocks get no edges. */
  ghost function Linkable(g: Graph): (r: Graph)
    requires WellFormed(g)
    ensures |r.succs| == |g.succs| && r.header == g.header && WellFormed(r)
  {
    var seen := ExploreAll(g).seen;
    Graph(seq(|g.succs|, u requires 0 <= u < |g.succs| => if u in seen then g.succs[u] else []), g.header)
  }

  lemma LinkableAll(g: Graph)
    requires WellFormed(g) && AllReachable(g)
    ensures Linkable(g) == g
  {
    ExploreAllReachable(g);
    forall u: nat | u < |g.succs|
      ensures Linkable(g).succs[u] == g.succs[u]
    {
      assert Reachable(g, u);
    }
    assert Linkable(g).succs == g.succs;
  }

  ghost predicate Empty(g: Graph, s: State) {
    && WellFormed(g) && g.header == 0
    && |s.vis| == |s.succs| == |s.preds| == |g.succs| && s.edges == []
    && forall u :: 0 <= u < |s.vis| ==> !s.vis[u] && s.succs[u] == EMPTY_LIST && s.preds[u] == EMPTY_LIST
  }

  /** The result for the whole graph: the blocks reachable from the entry are visited and
      linked, and the tree edges of the exploration are recorded. */
  ghost predicate Built(g: Graph, s: State) {
    && WellFormed(g) && |s.vis| == |g.succs|
    && s.header == 0
    && VisitedSet(s.vis) == ExploreAll(g).seen && s.edges == ExploreAll(g).tree
    && ListsOk(s.succs, s.preds) && Items(s.succs) == Linkable(g).succs
  }

  lemma {:induction false} BuildAll(g: Graph, s: State)
    requires Empty(g, s)
    ensures Fits(g, s) && Built(g, Build(g, 0, 0, Enter(s, 0)))
  {
    var s0 := Enter(s, 0);
    assert ListsOk(s0.succs, s0.preds);
    BuildExplores(g, 0, 0, s0);
    var r := Build(g, 0, 0, s0);
    assert VisitedSet(s0.vis) == {0};
    assert r.edges[0..] == r.edges;
    forall u | 0 <= u < |g.succs|
      ensures r.succs[u].items == Linkable(g).succs[u]
    {
      assert u in ExploreAll(g).seen <==> r.vis[u];
      if u == 0 {
        assert s0.succs[0].items + g.succs[0][0..] == g.succs[0];
      }
    }
    assert Items(r.succs) == Linkable(g).succs;
  }

  /** The recorded edges fit: there is one edge less than there are reachable blocks. */
  lemma {:induction false} EdgesFit(code: seq<AtomicInstr>, starts: seq<int>, g: Graph)
    requires Laid(code, starts) && g == BlockGraph(code, starts)
    requires forall k :: 0 < k < |starts| ==> 0 < starts[k] <= |code|
    ensures |starts| > 0 && |ExploreAll(g).tree| <= EdgeRoom(code, starts, |starts| - 1)
  {
    LeadersInRange(code, starts);
    TreeSize(g);
  }

  /** The construction can start, and the recorded edges will fit. */
  lemma {:induction false} BuildFits(code: seq<AtomicInstr>, starts: seq<int>, g: Graph, s: State)
    requires Laid(code, starts) && g == BlockGraph(code, starts) && Empty(g, s)
    requires forall k :: 0 < k < |starts| ==> 0 < starts[k] <= |code|
    ensures 0 in starts && IndexOf(starts, 0) == 0
    ensures Fits(g, s) && Built(g, Build(g, 0, 0, Enter(s, 0)))
    ensures |Build(g, 0, 0, Enter(s, 0)).edges| <= EdgeRoom(code, starts, |starts| - 1)
  {
    EdgesFit(code, starts, g);
    LeadersInRange(code, starts);
    IndexOfStart(starts, 0);
    BuildAll(g, s);
  }
}
