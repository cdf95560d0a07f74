/** What block dominance in the graph says about the runs of the program. Control may leave
    a block before its end, at an unconditional jump with dead code behind it; the graph
    of the construction has the exits of the end, the cut graph those of the jump. */
module Dominance {
  import opened Graphs
  import opened IntermediateRepresentation
  import opened Leaders
  import opened Blocks
  import opened Simulation

  // ---------------------------------------------------------- the cut graph

  /** The first unconditional jump from position `from` on, or the position before `end`. */
  ghost function LeaveFrom(code: seq<AtomicInstr>, from: int, end: int): (last: int)
    requires 0 <= from < end <= |code|
    ensures from <= last < end && (last == end - 1 || code[last].kind.Jmp?)
    ensures forall pc :: from <= pc < last ==> !code[pc].kind.Jmp?
    decreases end - from
  {
    if from == end - 1 || code[from].kind.Jmp? then from else LeaveFrom(code, from + 1, end)
  }

  /** Where control leaves block `k`. */
  ghost function LeaveOf(code: seq<AtomicInstr>, starts: seq<int>, k: nat): (last: int)
    requires Laid(code, starts) && k < |starts|
    ensures starts[k] <= last < EndOf(code, starts, k) && LeavesAt(code, starts, last)
  {
    BlockBounds(code, starts, k);
    EndLeaves(code, starts, k);
    LeaveFrom(code, starts[k], EndOf(code, starts, k))
  }

  /** The blocks with the exits that control really takes. */
  ghost function CutGraph(code: seq<AtomicInstr>, starts: seq<int>): (g: Graph)
    requires Laid(code, starts)
    ensures WellFormed(g) && |g.succs| == |starts| && g.header == 0
    ensures forall k :: 0 <= k < |starts| ==> g.succs[k] == Successors(code, starts, LeaveOf(code, starts, k))
  {
    LeadersInRange(code, starts);
    Graph(seq(|starts|, k requires 0 <= k < |starts| => Successors(code, starts, LeaveOf(code, starts, k))), 0)
  }

  /** Up to where control leaves a block it falls through. */
  lemma StepBeforeLeaving(code: seq<AtomicInstr>, starts: seq<int>, k: nat, pc: int, next: int)
    requires Laid(code, starts) && k < |starts| && starts[k] <= pc < LeaveOf(code, starts, k)
    ensures Step(code, pc, next) <==> next == pc + 1
  {
    BlockBounds(code, starts, k);
    if code[pc].kind.CondJmp? {
      CondJmpEndsBlock(code, starts, k, pc);
    }
  }

  /** There it goes to the start of a successor in the cut graph. */
  lemma StepLeaving(code: seq<AtomicInstr>, starts: seq<int>, k: nat, next: int)
    requires Laid(code, starts) && k < |starts|
    ensures Step(code, LeaveOf(code, starts, k), next)
            <==> exists t: nat :: Edge(CutGraph(code, starts), k, t) && starts[t] == next
  {
    var g, last := CutGraph(code, starts), LeaveOf(code, starts, k);
    SuccessorsLeadTo(code, starts, last);
    assert g.succs[k] == Successors(code, starts, last);
    if Step(code, last, next) {
      assert Edge(g, k, IndexOf(starts, next));
    }
    if t: nat :| Edge(g, k, t) && starts[t] == next {
      LeadersInRange(code, starts);
    }
  }

  // ------------------------------------------------------------ runs, walks

  /** Run and walk pass the same blocks: the run passes the start of a block exactly if
      the walk passes the block. */
  ghost predicate SameBlocks(starts: seq<int>, run: seq<int>, walk: seq<nat>) {
    forall a: nat :: a < |starts| ==> (a in walk <==> starts[a] in run)
  }

  /** The run ends at `pc` in block `k`, where control has not left it yet, and the walk leads
      to the block and passes the same blocks. */
  ghost predicate Tracks(code: seq<AtomicInstr>, starts: seq<int>, run: seq<int>, walk: seq<nat>, k: nat, pc: int)
    requires Laid(code, starts)
  {
    && k < |starts| && starts[k] <= pc <= LeaveOf(code, starts, k)
    && RunTo(code, run, pc) && PathTo(CutGraph(code, starts), walk, k)
    && SameBlocks(starts, run, walk)
  }

  lemma TracksStart(code: seq<AtomicInstr>, starts: seq<int>)
    requires Laid(code, starts)
    ensures Tracks(code, starts, [0], [0], 0, 0)
  {
    LeadersInRange(code, starts);
    BlockBounds(code, starts, 0);
    forall a: nat | a < |starts|
      ensures a in [0] <==> starts[a] in [0]
    {
      assert Ordered(starts, 0, a);
    }
  }

  lemma RunAppend(code: seq<AtomicInstr>, run: seq<int>, pc: int, next: int)
    requires RunTo(code, run, pc) && Step(code, pc, next)
    ensures RunTo(code, run + [next], next)
  {
    var all := run + [next];
    forall i | 0 <= i < |all| - 1
      ensures Step(code, all[i], all[i + 1])
    {
      if i < |run| - 1 {
        assert Step(code, run[i], run[i + 1]);
      }
    }
  }

  /** One step inside the block: no start of a block is passed. */
  lemma TracksInside(code: seq<AtomicInstr>, starts: seq<int>, run: seq<int>, walk: seq<nat>, k: nat, pc: int)
    requires Laid(code, starts) && Tracks(code, starts, run, walk, k, pc) && pc < LeaveOf(code, starts, k)
    ensures Tracks(code, starts, run + [pc + 1], walk, k, pc + 1)
  {
    StepBeforeLeaving(code, starts, k, pc, pc + 1);
    RunAppend(code, run, pc, pc + 1);
    InteriorNotLeader(code, starts, k, pc + 1);
  }

  /** One step out of the block: both go on to the same block. */
  lemma TracksAcross(code: seq<AtomicInstr>, starts: seq<int>, run: seq<int>, walk: seq<nat>, k: nat, t: nat)
    requires Laid(code, starts) && k < |starts| && Tracks(code, starts, run, walk, k, LeaveOf(code, starts, k))
    requires Edge(CutGraph(code, starts), k, t)
    ensures Tracks(code, starts, run + [starts[t]], walk + [t], t, starts[t])
  {
    StepLeaving(code, starts, k, starts[t]);
    RunAppend(code, run, LeaveOf(code, starts, k), starts[t]);
    PathAppend(CutGraph(code, starts), walk, 0, k, t);
    forall a: nat | a < |starts|
      ensures a in walk + [t] <==> starts[a] in run + [starts[t]]
    {
      assert Ordered(starts, a, t) && Ordered(starts, t, a);
    }
  }

  /** One more step of the run, inside the block or out of it. */
  lemma TracksStep(code: seq<AtomicInstr>, starts: seq<int>, run: seq<int>, walk: seq<nat>, k: nat, pc: int, next: int)
    returns (walk': seq<nat>, k': nat)
    requires Laid(code, starts) && Tracks(code, starts, run, walk, k, pc) && Step(code, pc, next)
    ensures Tracks(code, starts, run + [next], walk', k', next)
  {
    if pc < LeaveOf(code, starts, k) {
      walk', k' := walk, k;
      StepBeforeLeaving(code, starts, k, pc, next);
      TracksInside(code, starts, run, walk, k, pc);
    } else {
      StepLeaving(code, starts, k, next);
      var t: nat :| Edge(CutGraph(code, starts), k, t) && starts[t] == next;
      walk', k' := walk + [t], t;
      TracksAcross(code, starts, run, walk, k, t);
    }
  }

  /** Every run follows a walk in the cut graph. */
  lemma {:induction false} RunTracksWalk(code: seq<AtomicInstr>, starts: seq<int>, run: seq<int>, pc: int)
    returns (walk: seq<nat>, k: nat)
    requires Laid(code, starts) && RunTo(code, run, pc)
    ensures Tracks(code, starts, run, walk, k, pc)
    decreases |run|
  {
    if |run| == 1 {
      walk, k := [0], 0;
      assert run == [0];
      TracksStart(code, starts);
    } else {
      var before, front := run[|run| - 2], run[..|run| - 1];
      assert Step(code, before, run[|run| - 2 + 1]);
      assert run == front + [pc];
      walk, k := RunTracksWalk(code, starts, front, before);
      walk, k := TracksStep(code, starts, front, walk, k, before, pc);
    }
  }

  /** A run at the start of a block goes on to where control leaves it. */
  lemma {:induction false} RunToLeaving(code: seq<AtomicInstr>, starts: seq<int>, run: seq<int>, walk: seq<nat>, k: nat,
                                        pc: int)
    returns (longer: seq<int>)
    requires Laid(code, starts) && Tracks(code, starts, run, walk, k, pc)
    ensures Tracks(code, starts, longer, walk, k, LeaveOf(code, starts, k))
    decreases EndOf(code, starts, k) - pc
  {
    if pc == LeaveOf(code, starts, k) {
      longer := run;
    } else {
      TracksInside(code, starts, run, walk, k, pc);
      longer := RunToLeaving(code, starts, run + [pc + 1], walk, k, pc + 1);
    }
  }

  /** Along every walk in the cut graph there is a run. */
  lemma {:induction false} WalkTracksRun(code: seq<AtomicInstr>, starts: seq<int>, walk: seq<nat>, k: nat)
    returns (run: seq<int>)
    requires Laid(code, starts) && PathTo(CutGraph(code, starts), walk, k)
    ensures Tracks(code, starts, run, walk, k, starts[k])
    decreases |walk|
  {
    var g := CutGraph(code, starts);
    LeadersInRange(code, starts);
    if |walk| == 1 {
      run := [0];
      assert walk == [0];
      TracksStart(code, starts);
    } else {
      var m, front := walk[|walk| - 2], walk[..|walk| - 1];
      assert Edge(g, m, walk[|walk| - 2 + 1]);
      PathPrefix(g, walk, g.header, k, |walk| - 2);
      assert walk == front + [k];
      run := WalkTracksRun(code, starts, front, m);
      run := RunToLeaving(code, starts, run, front, m, starts[m]);
      TracksAcross(code, starts, run, front, m, k);
      run := run + [starts[k]];
    }
  }

  // -------------------------------------------------------------- dominance

  /** Every run from the start of the program to position `b` passes position `a`. */
  ghost predicate InstructionDominates(code: seq<AtomicInstr>, a: int, b: int) {
    forall run :: RunTo(code, run, b) ==> a in run
  }

  /** Instruction dominance is block dominance in the cut graph, for every program. */
  lemma InstructionDominatesIff(code: seq<AtomicInstr>, starts: seq<int>, a: nat, b: nat)
    requires Laid(code, starts) && a < |starts| && b < |starts|
    ensures InstructionDominates(code, starts[a], starts[b]) <==> Dominates(CutGraph(code, starts), a, b)
  {
    var g := CutGraph(code, starts);
    if InstructionDominates(code, starts[a], starts[b]) {
      forall walk | PathTo(g, walk, b)
        ensures a in walk
      {
        var run := WalkTracksRun(code, starts, walk, b);
        assert starts[a] in run;
      }
    }
    if Dominates(g, a, b) {
      forall run | RunTo(code, run, starts[b])
        ensures starts[a] in run
      {
        var walk, k := RunTracksWalk(code, starts, run, starts[b]);
        BlockBounds(code, starts, b);
        InsideUnique(code, starts, b, k, starts[b]);
        assert a in walk;
      }
    }
  }

  ghost predicate SameDominators(g: Graph, h: Graph) {
    forall a: nat, b: nat :: a < |g.succs| && b < |g.succs| ==> (Dominates(g, a, b) <==> Dominates(h, a, b))
  }

  /** Block dominance in the graph of the construction is instruction dominance. */
  ghost predicate DominanceAgrees(code: seq<AtomicInstr>, starts: seq<int>)
    requires Laid(code, starts)
  {
    forall a: nat, b: nat :: a < |starts| && b < |starts| ==>
      (Dominates(BlockGraph(code, starts), a, b) <==> InstructionDominates(code, starts[a], starts[b]))
  }

  /** It is, for all pairs of blocks, exactly if dead code behind jumps does not change the
      dominators of the graph. */
  lemma DominanceAgreesIff(code: seq<AtomicInstr>, starts: seq<int>)
    requires Laid(code, starts)
    ensures DominanceAgrees(code, starts) <==> SameDominators(BlockGraph(code, starts), CutGraph(code, starts))
  {
    var g, h := BlockGraph(code, starts), CutGraph(code, starts);
    forall a: nat, b: nat | a < |starts| && b < |starts|
      ensures InstructionDominates(code, starts[a], starts[b]) <==> Dominates(h, a, b)
    {
      InstructionDominatesIff(code, starts, a, b);
    }
    if DominanceAgrees(code, starts) {
      forall a: nat, b: nat | a < |g.succs| && b < |g.succs|
        ensures Dominates(g, a, b) <==> Dominates(h, a, b)
      {
        assert Dominates(g, a, b) <==> InstructionDominates(code, starts[a], starts[b]);
      }
    }
  }

  // ------------------------------------------------------------------ guard

  /** Every block that the graph reaches has the same successors where control leaves it as
      at its end: it has no dead code, or falls to where its jump goes. */
  ghost predicate SameExits(code: seq<AtomicInstr>, starts: seq<int>)
    requires Laid(code, starts)
  {
    forall k: nat :: Reachable(BlockGraph(code, starts), k) ==>
      SameSuccessors(BlockGraph(code, starts), CutGraph(code, starts), k)
  }

  ghost predicate SameSuccessors(g: Graph, h: Graph, k: nat) {
    forall t: nat :: Edge(g, k, t) <==> Edge(h, k, t)
  }

  lemma {:induction false} SamePaths(g: Graph, h: Graph, p: seq<nat>, v: nat)
    requires WellFormed(g) && WellFormed(h) && |g.succs| == |h.succs| && g.header == h.header
    requires forall k: nat :: Reachable(g, k) ==> SameSuccessors(g, h, k)
    ensures PathTo(g, p, v) <==> PathTo(h, p, v)
    decreases |p|
  {
    if |p| <= 1 {
    } else {
      var u, front := p[|p| - 2], p[..|p| - 1];
      SamePaths(g, h, front, u);
      assert p == front + [p[|p| - 1]];
      if PathTo(g, p, v) {
        assert Edge(g, u, p[|p| - 2 + 1]);
        PathPrefix(g, p, g.header, v, |p| - 2);
        assert Reachable(g, u) && SameSuccessors(g, h, u);
        PathAppend(h, front, h.header, u, v);
      }
      if PathTo(h, p, v) {
        assert Edge(h, u, p[|p| - 2 + 1]);
        PathPrefix(h, p, h.header, v, |p| - 2);
        assert Reachable(g, u) && SameSuccessors(g, h, u);
        PathAppend(g, front, g.header, u, v);
      }
    }
  }

  lemma SameExitsSuffices(code: seq<AtomicInstr>, starts: seq<int>)
    requires Laid(code, starts) && SameExits(code, starts)
    ensures SameDominators(BlockGraph(code, starts), CutGraph(code, starts))
  {
    var g, h := BlockGraph(code, starts), CutGraph(code, starts);
    forall p: seq<nat>, v: nat
      ensures PathTo(g, p, v) <==> PathTo(h, p, v)
    {
      SamePaths(g, h, p, v);
    }
  }

  lemma LeavesAtEnd(code: seq<AtomicInstr>, starts: seq<int>, k: nat)
    requires Laid(code, starts) && k < |starts| && LeaveOf(code, starts, k) == EndOf(code, starts, k) - 1
    ensures BlockGraph(code, starts).succs[k] == CutGraph(code, starts).succs[k]
  {
    assert BlockGraph(code, starts).succs[k] == BlockSuccessors(code, starts, k);
    assert CutGraph(code, starts).succs[k] == Successors(code, starts, LeaveOf(code, starts, k));
  }

  /** Without unconditional jumps before the end of a block the exits are the same. */
  lemma NoInteriorJumpSuffices(code: seq<AtomicInstr>, starts: seq<int>)
    requires Laid(code, starts) && NoInteriorJump(code, starts)
    ensures SameExits(code, starts)
  {
    forall k: nat | Reachable(BlockGraph(code, starts), k)
      ensures SameSuccessors(BlockGraph(code, starts), CutGraph(code, starts), k)
    {
      assert Inside(code, starts, k, LeaveOf(code, starts, k));
      LeavesAtEnd(code, starts, k);
    }
  }

  /** Block dominance is instruction dominance if every reachable block has the same exits
      at its end and where control leaves it. */
  lemma BlockDominanceIff(code: seq<AtomicInstr>, starts: seq<int>, a: nat, b: nat)
    requires Laid(code, starts) && SameExits(code, starts) && a < |starts| && b < |starts|
    ensures Dominates(BlockGraph(code, starts), a, b) <==> InstructionDominates(code, starts[a], starts[b])
  {
    SameExitsSuffices(code, starts);
    InstructionDominatesIff(code, starts, a, b);
  }
}
