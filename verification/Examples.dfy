/** Small programs on which the results do not hold without their hypotheses. Each of them
    is one that the graph construction accepts. */
module Examples {
  import opened Graphs
  import opened DepthFirst
  import opened ControlFlowGraph
  import opened IntermediateRepresentation
  import opened Leaders
  import opened Blocks
  import opened Simulation
  import opened Dominance
  import opened FrontierSpec
  import opened Frontier
  import opened PostOrder
  import opened Pipeline

  // ------------------------------------------------------ writing programs

  function JumpTo(kind: AtomicKind, at: int, target: int): AtomicInstr {
    AtomicInstr(kind, at, ValueId(Address(ConstSpace, target), Word, 0, at), NO_VALUE)
  }

  function CopyAt(at: int): AtomicInstr {
    AtomicInstr(Copy, at, NO_VALUE, NO_VALUE)
  }

  /** The construction accepts the program: it is well-formed, the leader buffer suffices
      and there are two leaders. */
  ghost predicate Accepted(code: seq<AtomicInstr>) {
    ProgramOk(code) && BufferSuffices(code) && exists x :: x != 0 && IsLeader(code, x)
  }

  /** The leaders are determined by the program. */
  lemma LeadersUnique(code: seq<AtomicInstr>, s: seq<int>, t: seq<int>)
    requires LeaderList(code, s) && LeaderList(code, t)
    ensures s == t
  {
    LeadersPrefix(code, s, t, |s|);
    LeadersPrefix(code, t, s, |t|);
  }

  lemma {:induction false} LeadersPrefix(code: seq<AtomicInstr>, s: seq<int>, t: seq<int>, n: nat)
    requires LeaderList(code, s) && LeaderList(code, t) && n <= |s|
    ensures n <= |t| && forall j :: 0 <= j < n ==> s[j] == t[j]
  {
    if n == 0 {
    } else {
      var i := n - 1;
      LeadersPrefix(code, s, t, i);
      var m: nat := IndexOf(t, s[i]);
      NotBefore(s, t, i, m);
      assert Ordered(t, i, m);
      var k: nat := IndexOf(s, t[i]);
      NotBefore(t, s, i, k);
      assert Ordered(s, i, k);
    }
  }

  lemma NotBefore(s: seq<int>, t: seq<int>, i: nat, m: nat)
    requires StrictlyIncreasing(s) && i < |s| && m < |t| && t[m] == s[i]
    requires forall j :: 0 <= j < i && j < |t| ==> s[j] == t[j]
    ensures m >= i
  {
    assert Ordered(s, m, i);
  }

  lemma {:induction false} EntriesUnfold(code: seq<AtomicInstr>, n: nat)
    requires 0 < n <= |code|
    ensures Entries(code, n) == Entries(code, n - 1) +
              match code[n - 1].kind
              case Jmp => [Target(code[n - 1])]
              case CondJmp => [Target(code[n - 1]), code[n - 1].offset + 1]
              case _ => []
  {
  }

  lemma {:induction false} LaidByEntries(code: seq<AtomicInstr>, starts: seq<int>)
    requires ProgramOk(code) && StrictlyIncreasing(starts)
    requires forall x :: x in starts <==> x in Entries(code, |code|)
    ensures Laid(code, starts)
  {
    forall x
      ensures x in starts <==> IsLeader(code, x)
    {
      EntriesAre(code, |code|, x);
    }
  }

  // The successors of a block, by the instruction that ends it.

  lemma JumpSuccessor(code: seq<AtomicInstr>, starts: seq<int>, k: nat, last: nat, t: nat)
    requires Laid(code, starts) && k < |starts| && t < |starts|
    requires last == EndOf(code, starts, k) - 1 < |code| && code[last].kind == Jmp && Target(code[last]) == starts[t]
    ensures BlockGraph(code, starts).succs[k] == [t]
  {
    IndexOfStart(starts, t);
    BlockLeadsTo(code, starts, k);
  }

  lemma BranchSuccessors(code: seq<AtomicInstr>, starts: seq<int>, k: nat, last: nat, t: nat)
    requires Laid(code, starts) && k + 1 < |starts| && t < |starts|
    requires last == EndOf(code, starts, k) - 1 < |code| && code[last].kind == CondJmp
    requires Target(code[last]) == starts[t]
    ensures BlockGraph(code, starts).succs[k] == [t, k + 1]
  {
    IndexOfStart(starts, t);
    IndexOfStart(starts, k + 1);
    BlockLeadsTo(code, starts, k);
  }

  lemma NextSuccessor(code: seq<AtomicInstr>, starts: seq<int>, k: nat, last: nat)
    requires Laid(code, starts) && k < |starts|
    requires last == EndOf(code, starts, k) - 1 < |code| && code[last].kind == Copy
    ensures BlockGraph(code, starts).succs[k] == if k + 1 < |starts| then [k + 1] else []
  {
    BlockLeadsTo(code, starts, k);
    if k + 1 < |starts| {
      BlockBounds(code, starts, k + 1);
      IndexOfStart(starts, k + 1);
    }
  }

  // --------------------------------------------- a header with a back edge

  const LOOP := [CopyAt(0), JumpTo(CondJmp, 1, 0), CopyAt(2)]

  lemma LoopLaid()
    ensures Accepted(LOOP) && Laid(LOOP, [0, 2])
  {
    EntriesUnfold(LOOP, 1);
    EntriesUnfold(LOOP, 2);
    EntriesUnfold(LOOP, 3);
    assert Entries(LOOP, 3) == [0, 0, 2];
    LaidByEntries(LOOP, [0, 2]);
    assert 2 in [0, 2];
  }

  lemma LoopGraph(g: Graph)
    requires Laid(LOOP, [0, 2]) && g == BlockGraph(LOOP, [0, 2])
    ensures g == Graph([[0, 1], []], 0)
  {
    BranchSuccessors(LOOP, [0, 2], 0, 1, 0);
    NextSuccessor(LOOP, [0, 2], 1, 2);
    assert g.succs == [[0, 1], []];
  }

  /** A program whose header is a successor of its own block: it is accepted and all its
      blocks are reachable, the header is in its own textbook frontier, and the computed
      arrays do not hold it. */
  lemma HeaderLoopMissed(starts: seq<int>, preds: seq<NodeList>, lists: seq<NodeList>)
    requires LeaderList(LOOP, starts)
    ensures Accepted(LOOP) && Analyzable(LOOP) && starts == [0, 2]
    ensures InFrontier(BlockGraph(LOOP, starts), 0, 0)
    ensures FrontierArrays(BlockGraph(LOOP, starts), preds, lists) ==> 0 !in lists[0].items
  {
    LoopLaid();
    LeadersUnique(LOOP, starts, [0, 2]);
    var g := BlockGraph(LOOP, starts);
    LoopGraph(g);
    LoopReachable(g);
    forall other: seq<int> | Laid(LOOP, other)
      ensures AllReachable(BlockGraph(LOOP, other))
    {
      LeadersUnique(LOOP, other, starts);
    }
    assert Edge(g, 0, 0) && Dominates(g, 0, 0);
    assert !StrictlyDominates(g, 0, 0);
  }

  lemma LoopReachable(g: Graph)
    requires g == Graph([[0, 1], []], 0)
    ensures AllReachable(g)
  {
    assert PathTo(g, [0], 0);
    assert Edge(g, 0, 1);
    assert PathTo(g, [0, 1], 1);
    forall v: nat | v < |g.succs|
      ensures Reachable(g, v)
    {
      if v == 0 {
        assert PathTo(g, [0], v);
      } else {
        assert PathTo(g, [0, 1], v);
      }
    }
  }

  // ----------------------------------------------- dead code behind a jump

  const DEAD_CODE := [JumpTo(Jmp, 0, 2), CopyAt(1), CopyAt(2)]

  lemma DeadCodeLaid()
    ensures Accepted(DEAD_CODE) && Laid(DEAD_CODE, [0, 2])
  {
    EntriesUnfold(DEAD_CODE, 1);
    EntriesUnfold(DEAD_CODE, 2);
    EntriesUnfold(DEAD_CODE, 3);
    assert Entries(DEAD_CODE, 3) == [0, 2];
    LaidByEntries(DEAD_CODE, [0, 2]);
    assert 2 in [0, 2];
  }

  /** A program with a jump inside its first block: it is accepted, and its graph does not
      preserve control flow. */
  lemma DeadCodeBreaks()
    ensures Accepted(DEAD_CODE) && Laid(DEAD_CODE, [0, 2]) && !PreservesControlFlow(DEAD_CODE, [0, 2])
  {
    DeadCodeLaid();
    var g := BlockGraph(DEAD_CODE, [0, 2]);
    assert PathTo(g, [0], 0);
    InteriorJumpBreaks(DEAD_CODE, [0, 2], 0, 0);
  }

  /** Its dominators are still right: the jump goes where the block falls to, so the exits
      are the same. */
  lemma DeadCodeHarmless()
    ensures Accepted(DEAD_CODE) && Laid(DEAD_CODE, [0, 2]) && !NoInteriorJump(DEAD_CODE, [0, 2])
    ensures SameExits(DEAD_CODE, [0, 2]) && DominanceAgrees(DEAD_CODE, [0, 2])
  {
    DeadCodeBreaks();
    ControlFlowPreservedIff(DEAD_CODE, [0, 2]);
    DeadCodeExits();
    SameExitsSuffices(DEAD_CODE, [0, 2]);
    DominanceAgreesIff(DEAD_CODE, [0, 2]);
  }

  lemma DeadCodeExits()
    requires Laid(DEAD_CODE, [0, 2])
    ensures SameExits(DEAD_CODE, [0, 2])
  {
    NextSuccessor(DEAD_CODE, [0, 2], 0, 1);
    CutAtJump(DEAD_CODE, [0, 2], 0, 0, 1);
    LeavesAtEnd(DEAD_CODE, [0, 2], 1);
  }

  /** A block whose first instruction is a jump leaves there. */
  lemma CutAtJump(code: seq<AtomicInstr>, starts: seq<int>, k: nat, first: nat, t: nat)
    requires Laid(code, starts) && k < |starts| && t < |starts|
    requires first == starts[k] < |code| && code[first].kind == Jmp && Target(code[first]) == starts[t]
    ensures CutGraph(code, starts).succs[k] == [t]
  {
    IndexOfStart(starts, t);
    assert LeaveOf(code, starts, k) == first;
    SuccessorsLeadTo(code, starts, first);
  }

  // --------------------------------------- dominance without the hypothesis

  const SKIPPED := [JumpTo(Jmp, 0, 3), CopyAt(1), CopyAt(2), JumpTo(CondJmp, 3, 2), CopyAt(4)]

  lemma SkippedLaid()
    ensures Accepted(SKIPPED) && Laid(SKIPPED, [0, 2, 3, 4])
  {
    EntriesUnfold(SKIPPED, 1);
    EntriesUnfold(SKIPPED, 2);
    EntriesUnfold(SKIPPED, 3);
    EntriesUnfold(SKIPPED, 4);
    EntriesUnfold(SKIPPED, 5);
    assert Entries(SKIPPED, 5) == [0, 3, 2, 4];
    LaidByEntries(SKIPPED, [0, 2, 3, 4]);
    assert 2 in [0, 2, 3, 4];
  }

  lemma FourLists(succs: seq<seq<nat>>, a: seq<nat>, b: seq<nat>, c: seq<nat>, d: seq<nat>)
    requires |succs| == 4 && succs[0] == a && succs[1] == b && succs[2] == c && succs[3] == d
    ensures succs == [a, b, c, d]
  {
  }

  lemma SkippedFirst()
    requires Laid(SKIPPED, [0, 2, 3, 4])
    ensures BlockGraph(SKIPPED, [0, 2, 3, 4]).succs[0] == [1]
    ensures BlockGraph(SKIPPED, [0, 2, 3, 4]).succs[1] == [2]
  {
    NextSuccessor(SKIPPED, [0, 2, 3, 4], 0, 1);
    NextSuccessor(SKIPPED, [0, 2, 3, 4], 1, 2);
  }

  lemma SkippedLast()
    requires Laid(SKIPPED, [0, 2, 3, 4])
    ensures BlockGraph(SKIPPED, [0, 2, 3, 4]).succs[2] == [1, 3]
    ensures BlockGraph(SKIPPED, [0, 2, 3, 4]).succs[3] == []
  {
    BranchSuccessors(SKIPPED, [0, 2, 3, 4], 2, 3, 1);
    NextSuccessor(SKIPPED, [0, 2, 3, 4], 3, 4);
  }

  lemma SkippedGraph(g: Graph)
    requires Laid(SKIPPED, [0, 2, 3, 4]) && g == BlockGraph(SKIPPED, [0, 2, 3, 4])
    ensures g == Graph([[1], [2], [1, 3], []], 0)
  {
    SkippedFirst();
    SkippedLast();
    FourLists(g.succs, [1], [2], [1, 3], []);
  }

  lemma SkippedDominates(g: Graph)
    requires g == Graph([[1], [2], [1, 3], []], 0)
    ensures Dominates(g, 1, 2)
  {
    forall p | PathTo(g, p, 2)
      ensures 1 in p
    {
      assert Edge(g, p[0], p[0 + 1]);
      assert p[1] == 1;
    }
  }

  lemma SkippedReachable(g: Graph)
    requires g == Graph([[1], [2], [1, 3], []], 0)
    ensures AllReachable(g)
  {
    assert Edge(g, 0, 1) && Edge(g, 1, 2) && Edge(g, 2, 3);
    var p := [0, 1, 2, 3];
    forall v: nat | v < |g.succs|
      ensures Reachable(g, v)
    {
      assert PathTo(g, p[..v + 1], v);
    }
  }

  /** A program where dead code changes the dominators, although all blocks are reachable:
      block 1 dominates block 2, but the run that takes the first jump never passes the
      start of block 1. */
  lemma SkippedBlockDominates()
    ensures Accepted(SKIPPED) && Laid(SKIPPED, [0, 2, 3, 4]) && AllReachable(BlockGraph(SKIPPED, [0, 2, 3, 4]))
    ensures Dominates(BlockGraph(SKIPPED, [0, 2, 3, 4]), 1, 2) && !InstructionDominates(SKIPPED, 2, 3)
    ensures !SameDominators(BlockGraph(SKIPPED, [0, 2, 3, 4]), CutGraph(SKIPPED, [0, 2, 3, 4]))
  {
    SkippedLaid();
    SkippedGraph(BlockGraph(SKIPPED, [0, 2, 3, 4]));
    SkippedDominates(BlockGraph(SKIPPED, [0, 2, 3, 4]));
    SkippedReachable(BlockGraph(SKIPPED, [0, 2, 3, 4]));
    assert RunTo(SKIPPED, [0, 3], 3);
    InstructionDominatesIff(SKIPPED, [0, 2, 3, 4], 1, 2);
  }

  // --------------------------------------------------- an unreachable block

  const UNREACHED := [JumpTo(Jmp, 0, 2), JumpTo(Jmp, 1, 1), CopyAt(2)]

  lemma UnreachedLaid()
    ensures Accepted(UNREACHED) && Laid(UNREACHED, [0, 1, 2])
  {
    EntriesUnfold(UNREACHED, 1);
    EntriesUnfold(UNREACHED, 2);
    EntriesUnfold(UNREACHED, 3);
    assert Entries(UNREACHED, 3) == [0, 2, 1];
    LaidByEntries(UNREACHED, [0, 1, 2]);
    assert 1 in [0, 1, 2];
  }

  lemma UnreachedGraph(g: Graph)
    requires Laid(UNREACHED, [0, 1, 2]) && g == BlockGraph(UNREACHED, [0, 1, 2])
    ensures g == Graph([[2], [1], []], 0)
  {
    var starts := [0, 1, 2];
    JumpSuccessor(UNREACHED, starts, 0, 0, 2);
    JumpSuccessor(UNREACHED, starts, 1, 1, 1);
    NextSuccessor(UNREACHED, starts, 2, 2);
    assert g.succs == [[2], [1], []];
  }

  /** A program that the construction accepts although it has an unreachable block: the
      search of the dominator pass leaves a slot of its node list unwritten. */
  lemma UnreachedBlock()
    ensures Accepted(UNREACHED) && Laid(UNREACHED, [0, 1, 2])
    ensures var g := BlockGraph(UNREACHED, [0, 1, 2]);
            !AllReachable(g) && |ExploreAll(g).tree| < |g.succs| - 1
  {
    UnreachedLaid();
    var g := BlockGraph(UNREACHED, [0, 1, 2]);
    UnreachedGraph(g);
    forall p | PathTo(g, p, 1)
      ensures false
    {
      ClosedHoldsPath(g, {0, 2}, p);
    }
    assert !Reachable(g, 1);
    TreeSize(g);
    ListFilledIff(g);
  }

  // ----------------------------------------------- a leader buffer overflow

  const OVERFLOW := [JumpTo(Jmp, 0, 1), JumpTo(Jmp, 1, 0)]

  /** A program with two leaders whose leader buffer, of one slot per instruction, is too
      small for what is written to it. */
  lemma BufferTooSmall()
    ensures ProgramOk(OVERFLOW) && LeaderList(OVERFLOW, [0, 1]) && !BufferSuffices(OVERFLOW)
  {
    EntriesUnfold(OVERFLOW, 1);
    EntriesUnfold(OVERFLOW, 2);
    assert Entries(OVERFLOW, 2) == [0, 1, 0];
    LaidByEntries(OVERFLOW, [0, 1]);
  }
}
