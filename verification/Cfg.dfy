/** The control-flow graph object that the back end builds and annotates. */
module ControlFlowGraph {
  import opened Graphs

  /** A growing buffer of node pointers with its two counters: the number of slots
      that were requested (`nb`) and the number of slots that were filled (`idx`). */
  datatype NodeList = NodeList(items: seq<nat>, nb: nat, idx: nat) {

    /** No slot is pending. */
    predicate Full() {
      nb == idx == |items|
    }
  }

  const EMPTY_LIST := NodeList([], 0, 0)

  /** A straight-line run of instructions: position of the first, and how many. */
  datatype Block = Block(start: int, length: int)

  function Items(lists: seq<NodeList>): (r: seq<seq<nat>>)
    ensures |r| == |lists|
    ensures forall i :: 0 <= i < |lists| ==> r[i] == lists[i].items
  {
    seq(|lists|, i requires 0 <= i < |lists| => lists[i].items)
  }

  ghost predicate AllFull(lists: seq<NodeList>) {
    forall i :: 0 <= i < |lists| ==> lists[i].Full()
  }

  /** `v` occurs among the successors of `u` as often as `u` among the predecessors
      of `v`. */
  ghost predicate Inverse(succs: seq<seq<nat>>, preds: seq<seq<nat>>) {
    && |succs| == |preds|
    && forall u: nat, v: nat :: u < |succs| && v < |succs| ==>
         multiset(succs[u])[v] == multiset(preds[v])[u]
  }

  ghost predicate InRange(lists: seq<seq<nat>>, n: nat) {
    forall u, i :: 0 <= u < |lists| && 0 <= i < |lists[u]| ==> lists[u][i] < n
  }

  /** One object per graph. The fields of its nodes are kept in parallel arrays that
      are indexed by node; a node pointer is a node's index, NULL is -1. */
  class CFG {
    const nbNodes: nat
    var header: int
    const blocks: array<Block>
    const successors: array<NodeList>
    const predecessors: array<NodeList>
    const dominator: array<int>
    const number: array<int>
    const processed: array<bool>
    const frontier: array<NodeList>
    const visited: array<bool>
    const nbEdges: nat
    const edges: array<Arc>
    var edgeIdx: nat

    ghost predicate Valid() {
      && nbNodes > 0
      && blocks.Length == successors.Length == predecessors.Length == nbNodes
      && dominator.Length == number.Length == processed.Length == nbNodes
      && frontier.Length == visited.Length == nbNodes
      && edges.Length == nbEdges
      && successors != predecessors && successors != frontier && predecessors != frontier
      && dominator != number && processed != visited
    }

    /** The successor lists and the header describe the graph `g`. */
    ghost predicate Represents(g: Graph)
      reads this`header, successors
    {
      && Valid()
      && WellFormed(g) && header == g.header
      && AllFull(successors[..]) && Items(successors[..]) == g.succs
    }

    /** In addition the predecessor lists are the inverse of the successor lists: the
        state in which the graph construction leaves a graph. */
    ghost predicate Linked(g: Graph)
      reads this`header, successors, predecessors
    {
      && Represents(g)
      && AllFull(predecessors[..])
      && InRange(Items(predecessors[..]), nbNodes)
      && Inverse(g.succs, Items(predecessors[..]))
    }

    /** All node fields but the blocks are zero: no lists, no dominators. */
    ghost predicate Clear()
      reads this, successors, predecessors, frontier, dominator, processed, visited
    {
      && Valid()
      && forall i :: 0 <= i < nbNodes ==>
           && successors[i] == EMPTY_LIST && predecessors[i] == EMPTY_LIST && frontier[i] == EMPTY_LIST
           && dominator[i] == NULL && !processed[i] && !visited[i]
    }

    /** An empty graph. */
    constructor (nbNodes: nat, nbEdges: nat)
      requires nbNodes > 0
      ensures Valid() && fresh(blocks) && fresh(successors) && fresh(predecessors)
      ensures fresh(dominator) && fresh(number) && fresh(processed)
      ensures fresh(frontier) && fresh(visited) && fresh(edges)
      ensures this.nbNodes == nbNodes && this.nbEdges == nbEdges
      ensures header == NULL && edgeIdx == 0
      ensures Clear()
    {
      this.nbNodes := nbNodes;
      this.header := NULL;
      this.blocks := new Block[nbNodes](i => Block(0, 0));
      this.successors := new NodeList[nbNodes](i => EMPTY_LIST);
      this.predecessors := new NodeList[nbNodes](i => EMPTY_LIST);
      this.dominator := new int[nbNodes](i => NULL);
      this.number := new int[nbNodes](i => 0);
      this.processed := new bool[nbNodes](i => false);
      this.frontier := new NodeList[nbNodes](i => EMPTY_LIST);
      this.visited := new bool[nbNodes](i => false);
      this.nbEdges := nbEdges;
      this.edges := new Arc[nbEdges](i => Arc(0, 0));
      this.edgeIdx := 0;
    }

    /** Resets each node to the unvisited state, for the next traversal. */
    method ResetVisited()
      requires Valid()
      modifies visited
      ensures AllFalse(visited[..])
    {
      for i := 0 to nbNodes
        invariant forall k :: 0 <= k < i ==> !visited[k]
      {
        visited[i] := false;
      }
    }
  }

  ghost predicate AllFalse(flags: seq<bool>) {
    forall i :: 0 <= i < |flags| ==> !flags[i]
  }

  /** Predecessor lists that invert the successor lists name the sources of edges. */
  lemma InverseListsEdges(g: Graph, preds: seq<seq<nat>>)
    requires WellFormed(g) && Inverse(g.succs, preds) && InRange(preds, |g.succs|)
    ensures forall u: nat, v: nat :: v < |preds| ==> (u in preds[v] <==> Edge(g, u, v))
  {
  }
}
