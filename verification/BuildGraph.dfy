/** The construction of the control-flow graph from the leaders: blocks, then a
    recursive exploration that links them. */
module BuildGraph {
  import opened Graphs
  import opened DepthFirst
  import opened Search
  import opened ControlFlowGraph
  import opened IntermediateRepresentation
  import opened Leaders
  import opened Blocks
  import opened BuildState

  const START_NODE := 0

  // ----------------------------------------------------------------- blocks

  /** An empty graph with the blocks filled in. The first block's length is read from
      the second leader, so there must be two. */
  method InitializeGraph(code: seq<AtomicInstr>, list: array<int>, nbNodes: nat, nbEdges: nat) returns (cfg: CFG)
    requires list.Length == nbNodes >= 2
    ensures fresh(cfg) && cfg.Valid() && cfg.nbNodes == nbNodes && cfg.nbEdges == nbEdges
    ensures fresh(cfg.successors) && fresh(cfg.predecessors) && fresh(cfg.dominator) && fresh(cfg.number)
    ensures fresh(cfg.processed) && fresh(cfg.frontier) && fresh(cfg.visited) && fresh(cfg.edges)
    ensures cfg.header == NULL && cfg.edgeIdx == 0 && cfg.Clear()
    ensures BlocksAre(code, list[..], cfg.blocks[..])
  {
    cfg := new CFG(nbNodes, nbEdges);
    cfg.blocks[0] := Block(list[0], list[1] - list[0]);
    for nodeIdx := 1 to nbNodes - 1
      modifies cfg.blocks
      invariant forall k :: 0 <= k < nodeIdx ==> cfg.blocks[k] == Block(list[k], list[k + 1] - list[k])
    {
      cfg.blocks[nodeIdx] := Block(list[nodeIdx], list[nodeIdx + 1] - list[nodeIdx]);
    }
    cfg.blocks[nbNodes - 1] := Block(list[nbNodes - 1], |code| - list[nbNodes - 1]);
  }

  /** The node whose first instruction carries the given offset, or NULL. */
  method FindNode(cfg: CFG, code: seq<AtomicInstr>, offset: int, ghost starts: seq<int>) returns (node: int)
    requires cfg.Valid() && Laid(code, starts) && BlocksAre(code, starts, cfg.blocks[..])
    ensures node == if offset in starts then IndexOf(starts, offset) else NULL
  {
    assert cfg.nbNodes == |starts|;
    for i := 0 to cfg.nbNodes
      invariant forall k :: 0 <= k < i ==> starts[k] != offset
    {
      BlockBounds(code, starts, i);
      assert cfg.blocks[..][i].start == starts[i];
      if code[cfg.blocks[i].start].offset == offset {
        IndexOfStart(starts, i);
        return i;
      }
    }
    return NULL;
  }

  // ---------------------------------------------------------- linking nodes

  /** Links `current`, whose successor array has a pending slot, to the block that
      starts at `offset`. */
  method UpdateNeighbourNodes(cfg: CFG, code: seq<AtomicInstr>, current: nat, offset: int, ghost starts: seq<int>)
    requires cfg.Valid() && Laid(code, starts) && BlocksAre(code, starts, cfg.blocks[..])
    requires current < cfg.nbNodes && offset in starts
    requires cfg.successors[current].idx < |cfg.successors[current].items|
    requires AllFull(cfg.predecessors[..])
    modifies cfg.successors, cfg.predecessors
    ensures var t := IndexOf(starts, offset);
            && cfg.successors[..] == old(cfg.successors[..])[current := Fill(old(cfg.successors[current]), t)]
            && cfg.predecessors[..] == old(cfg.predecessors[..])[t := Push(old(cfg.predecessors[t]), current)]
  {
    var node: nat := FindNode(cfg, code, offset, starts);
    assert cfg.nbNodes == |starts|;
    cfg.successors[current] := Fill(cfg.successors[current], node);
    var slot: nat := *;
    ghost var before := cfg.predecessors[node];
    cfg.predecessors[node] := Grow(cfg.predecessors[node], slot);
    cfg.predecessors[node] := Fill(cfg.predecessors[node], current);
    assert cfg.predecessors[node].items == before.items + [current];
  }

  // ------------------------------------------------------------ exploration

  /** Adds a successor slot to `current` and links it to the block at `offset`. */
  method Link(cfg: CFG, code: seq<AtomicInstr>, current: nat, offset: int, ghost starts: seq<int>)
    requires cfg.Valid() && Laid(code, starts) && BlocksAre(code, starts, cfg.blocks[..])
    requires current < cfg.nbNodes && offset in starts && cfg.edgeIdx <= cfg.edges.Length
    requires AllFull(cfg.successors[..]) && AllFull(cfg.predecessors[..])
    modifies cfg.successors, cfg.predecessors
    ensures Snapshot(cfg) == LinkTo(old(Snapshot(cfg)), current, IndexOf(starts, offset))
  {
    var slot: nat := *;
    ghost var before := cfg.successors[..];
    cfg.successors[current] := Grow(cfg.successors[current], slot);
    assert cfg.successors[..] == before[current := Grow(before[current], slot)];
    UpdateNeighbourNodes(cfg, code, current, offset, starts);
    assert Fill(Grow(before[current], slot), IndexOf(starts, offset)) == Push(before[current], IndexOf(starts, offset));
  }

  /** Records an edge. The exit for too many edges is not taken if there is room. */
  method CreateEdge(cfg: CFG, start: nat, target: nat)
    requires cfg.Valid() && cfg.edgeIdx < cfg.nbEdges
    modifies cfg`edgeIdx, cfg.edges
    ensures cfg.edgeIdx <= cfg.nbEdges
    ensures Snapshot(cfg) == AddEdge(old(Snapshot(cfg)), start, target)
  {
    if cfg.edgeIdx >= cfg.nbEdges {
      assert false;
    }
    cfg.edges[cfg.edgeIdx] := Arc(start, target);
    cfg.edgeIdx := cfg.edgeIdx + 1;
  }

  /** Adds the `i`-th successor to `current` and explores from there: the lines that the
      program repeats for the true branch, the false branch and the next block. */
  method AddBranch(cfg: CFG, code: seq<AtomicInstr>, current: nat, offset: int, lastOffset: int,
                   ghost starts: seq<int>, ghost g: Graph, ghost i: nat)
    requires Describes(cfg, code, starts, g) && lastOffset == |code| - 1
    requires current < cfg.nbNodes && cfg.edgeIdx <= cfg.nbEdges && Fits(g, Snapshot(cfg))
    requires i < |g.succs[current]| && offset in starts && g.succs[current][i] == IndexOf(starts, offset)
    requires |Branch(g, current, i, Snapshot(cfg)).edges| <= cfg.nbEdges
    modifies cfg`header, cfg`edgeIdx, cfg.edges, cfg.successors, cfg.predecessors, cfg.visited
    ensures cfg.edgeIdx <= cfg.nbEdges
    ensures Snapshot(cfg) == Branch(g, current, i, old(Snapshot(cfg)))
    decreases Nodes(g) - VisitedSet(cfg.visited[..]), 1
  {
    Link(cfg, code, current, offset, starts);
    var child := Generate(cfg, code, offset, lastOffset, starts, g, g.succs[current][i]);
    if child != NULL {
      CreateEdge(cfg, current, child);
    }
  }

  /** Follows both branches of the block `current`, which ends with the conditional jump
      `code[last]`: the true branch first. */
  method FollowBranches(cfg: CFG, code: seq<AtomicInstr>, current: nat, last: int, lastOffset: int,
                        ghost starts: seq<int>, ghost g: Graph)
    requires Describes(cfg, code, starts, g) && lastOffset == |code| - 1
    requires current < cfg.nbNodes && cfg.edgeIdx <= cfg.nbEdges && Fits(g, Snapshot(cfg))
    requires 0 <= last < |code| && LeadsTo(code, starts, g.succs[current], last) && code[last].kind == CondJmp
    requires |Build(g, current, 0, Snapshot(cfg)).edges| <= cfg.nbEdges
    modifies cfg`header, cfg`edgeIdx, cfg.edges, cfg.successors, cfg.predecessors, cfg.visited
    ensures cfg.edgeIdx <= cfg.nbEdges
    ensures Snapshot(cfg) == Build(g, current, 0, old(Snapshot(cfg)))
    decreases Nodes(g) - VisitedSet(cfg.visited[..]), 2
  {
    ghost var s0 := Snapshot(cfg);
    BuildUnrolled(g, current, s0);
    ghost var s1 := Branch(g, current, 0, s0);
    AddBranch(cfg, code, current, Target(code[last]), lastOffset, starts, g, 0);
    assert Nodes(g) - VisitedSet(s1.vis) <= Nodes(g) - VisitedSet(s0.vis);
    AddBranch(cfg, code, current, code[last].offset + 1, lastOffset, starts, g, 1);
  }

  /** Follows the exits of the block `current`, whose last instruction is `code[last]`. */
  method FollowExits(cfg: CFG, code: seq<AtomicInstr>, current: nat, last: int, lastOffset: int,
                     ghost starts: seq<int>, ghost g: Graph)
    requires Describes(cfg, code, starts, g) && lastOffset == |code| - 1
    requires current < cfg.nbNodes && cfg.edgeIdx <= cfg.nbEdges && Fits(g, Snapshot(cfg))
    requires 0 <= last < |code| && LeadsTo(code, starts, g.succs[current], last)
    requires |Build(g, current, 0, Snapshot(cfg)).edges| <= cfg.nbEdges
    modifies cfg`header, cfg`edgeIdx, cfg.edges, cfg.successors, cfg.predecessors, cfg.visited
    ensures cfg.edgeIdx <= cfg.nbEdges
    ensures Snapshot(cfg) == Build(g, current, 0, old(Snapshot(cfg)))
    decreases Nodes(g) - VisitedSet(cfg.visited[..]), 3
  {
    BuildUnrolled(g, current, Snapshot(cfg));
    if code[last].kind == CondJmp {
      FollowBranches(cfg, code, current, last, lastOffset, starts, g);
    } else if code[last].kind == Jmp {
      AddBranch(cfg, code, current, Target(code[last]), lastOffset, starts, g, 0);
    } else if code[last].offset != lastOffset {
      AddBranch(cfg, code, current, code[last + 1].offset, lastOffset, starts, g, 0);
    }
  }

  /** Explores the graph from the block `v`, which is the one at `offset`; NULL if it was
      visited before. */
  method Generate(cfg: CFG, code: seq<AtomicInstr>, offset: int, lastOffset: int, ghost starts: seq<int>,
                  ghost g: Graph, ghost v: nat)
    returns (result: int)
    requires Describes(cfg, code, starts, g) && lastOffset == |code| - 1
    requires offset in starts && v == IndexOf(starts, offset) && cfg.edgeIdx <= cfg.nbEdges && Fits(g, Snapshot(cfg))
    requires !cfg.visited[v] ==> |Build(g, v, 0, Enter(Snapshot(cfg), v)).edges| <= cfg.nbEdges
    modifies cfg`header, cfg`edgeIdx, cfg.edges, cfg.successors, cfg.predecessors, cfg.visited
    ensures cfg.edgeIdx <= cfg.nbEdges
    ensures if old(cfg.visited[v]) then result == NULL && Snapshot(cfg) == old(Snapshot(cfg))
            else result == v && Snapshot(cfg) == Build(g, v, 0, Enter(old(Snapshot(cfg)), v))
    decreases Nodes(g) - VisitedSet(cfg.visited[..]), 0
  {
    var current := FindNode(cfg, code, offset, starts);
    if current == NULL {
      assert false;
    }
    if cfg.visited[current] {
      return NULL;
    }
    IndexOfZero(code, starts, offset);
    ghost var s0 := Snapshot(cfg);
    EnterSet(s0.vis, current);
    if offset == START_NODE {
      cfg.header := current;
    }
    cfg.visited[current] := true;
    assert Snapshot(cfg) == Enter(s0, current);

    BlockLeadsTo(code, starts, current);
    var block := cfg.blocks[current];
    FollowExits(cfg, code, current, block.start + (block.length - 1), lastOffset, starts, g);
    return current;
  }

  // -------------------------------------------------------- the whole graph

  /** What the construction delivers: the blocks of the program, linked as far as they
      are reachable from its start, with all annotations still clear. */
  ghost predicate Delivered(cfg: CFG, code: seq<AtomicInstr>, starts: seq<int>)
    reads cfg, cfg.blocks, cfg.successors, cfg.predecessors, cfg.visited, cfg.dominator, cfg.processed, cfg.frontier,
          cfg.edges
  {
    && cfg.Valid() && cfg.nbNodes == |starts|
    && Laid(code, starts) && BlocksAre(code, starts, cfg.blocks[..])
    && cfg.Linked(Linkable(BlockGraph(code, starts)))
    && cfg.edgeIdx <= cfg.nbEdges && cfg.edges[..cfg.edgeIdx] == ExploreAll(BlockGraph(code, starts)).tree
    && AllFalse(cfg.visited[..]) && AllFalse(cfg.processed[..])
    && forall v :: 0 <= v < cfg.nbNodes ==> cfg.dominator[v] == NULL && cfg.frontier[v] == EMPTY_LIST
  }

  lemma ClearIsEmpty(cfg: CFG, g: Graph)
    requires cfg.Clear() && cfg.edgeIdx == 0 && WellFormed(g) && g.header == 0 && |g.succs| == cfg.nbNodes
    ensures Empty(g, Snapshot(cfg))
  {
  }

  lemma BuiltIsLinked(cfg: CFG, g: Graph)
    requires cfg.Valid() && cfg.edgeIdx <= cfg.nbEdges && Built(g, Snapshot(cfg)) && g.header == 0
    ensures cfg.Linked(Linkable(g)) && cfg.edges[..cfg.edgeIdx] == ExploreAll(g).tree
  {
    ListsOkInverse(cfg.successors[..], cfg.predecessors[..]);
  }

  /** The exploration from the start of the program, on an empty graph. */
  method GenerateFromStart(cfg: CFG, code: seq<AtomicInstr>, ghost starts: seq<int>, ghost g: Graph)
    requires Describes(cfg, code, starts, g) && cfg.Clear() && cfg.edgeIdx == 0
    requires forall k :: 0 < k < |starts| ==> 0 < starts[k] <= |code|
    requires |starts| > 0 && cfg.nbEdges == EdgeRoom(code, starts, |starts| - 1)
    modifies cfg`header, cfg`edgeIdx, cfg.edges, cfg.successors, cfg.predecessors, cfg.visited
    ensures cfg.Linked(Linkable(g))
    ensures cfg.edgeIdx <= cfg.nbEdges && cfg.edges[..cfg.edgeIdx] == ExploreAll(g).tree
  {
    ClearIsEmpty(cfg, g);
    BuildFits(code, starts, g, Snapshot(cfg));
    var node := Generate(cfg, code, START_NODE, |code| - 1, starts, g, 0);
    BuiltIsLinked(cfg, g);
  }

  /** The graph for a list of leaders, with all nodes unvisited again. */
  method CreateGraph(code: seq<AtomicInstr>, list: array<int>, nbNodes: nat, nbEdges: nat) returns (cfg: CFG)
    requires list.Length == nbNodes >= 2 && Laid(code, list[..])
    requires forall k :: 0 < k < nbNodes ==> 0 < list[k] <= |code|
    requires nbEdges == EdgeRoom(code, list[..], nbNodes - 1)
    ensures fresh(cfg) && fresh(cfg.dominator) && fresh(cfg.number) && fresh(cfg.processed)
    ensures fresh(cfg.frontier) && fresh(cfg.visited)
    ensures Delivered(cfg, code, list[..])
  {
    ghost var starts := list[..];
    ghost var g := BlockGraph(code, starts);
    cfg := InitializeGraph(code, list, nbNodes, nbEdges);
    GenerateFromStart(cfg, code, starts, g);
    cfg.ResetVisited();
  }

  /** The control-flow graph of a program. */
  method IrToCfg(ir: IR) returns (cfg: CFG, ghost starts: seq<int>)
    requires ir.Valid() && ProgramOk(ir.Code()) && BufferSuffices(ir.Code())
    requires exists x :: x != 0 && IsLeader(ir.Code(), x)
    ensures fresh(cfg) && fresh(cfg.dominator) && fresh(cfg.number) && fresh(cfg.processed)
    ensures fresh(cfg.frontier) && fresh(cfg.visited)
    ensures Delivered(cfg, ir.Code(), starts)
  {
    var code := ir.instrs[..ir.index];
    var list, nbNodes, nbEdges := GetInfoGraph(code);
    ghost var x :| x != 0 && IsLeader(code, x);
    assert 0 in list[..] && x in list[..];
    starts := list[..];
    cfg := CreateGraph(code, list, nbNodes, nbEdges);
  }
}
