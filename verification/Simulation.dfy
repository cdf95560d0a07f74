/** The control-flow graph preserves control flow: runs of the program and walks in the
    graph correspond. */
module Simulation {
  import opened Graphs
  import opened IntermediateRepresentation
  import opened Leaders
  import opened Blocks

  // ----------------------------------------------------------------- tiling

  ghost predicate Inside(code: seq<AtomicInstr>, starts: seq<int>, k: nat, pc: int) {
    k < |starts| && starts[k] <= pc < EndOf(code, starts, k)
  }

  lemma InsideUnique(code: seq<AtomicInstr>, starts: seq<int>, k: nat, m: nat, pc: int)
    requires Laid(code, starts) && Inside(code, starts, k, pc) && Inside(code, starts, m, pc)
    ensures k == m
  {
    assert Ordered(starts, k + 1, m) && Ordered(starts, m + 1, k);
  }

  /** Every position lies in exactly one block. */
  lemma BlocksTile(code: seq<AtomicInstr>, starts: seq<int>, pc: int) returns (k: nat)
    requires Laid(code, starts) && 0 <= pc < |code|
    ensures Inside(code, starts, k, pc)
    ensures forall m: nat :: Inside(code, starts, m, pc) ==> m == k
  {
    LeadersInRange(code, starts);
    k := |starts| - 1;
    while starts[k] > pc
      invariant k < |starts| && pc < EndOf(code, starts, k)
      decreases k
    {
      k := k - 1;
    }
    forall m: nat | Inside(code, starts, m, pc)
      ensures m == k
    {
      InsideUnique(code, starts, m, k, pc);
    }
  }

  lemma InteriorNotLeader(code: seq<AtomicInstr>, starts: seq<int>, k: nat, pc: int)
    requires Laid(code, starts) && Inside(code, starts, k, pc) && pc != starts[k]
    ensures pc !in starts
  {
    if pc in starts {
      var m: nat :| m < |starts| && starts[m] == pc;
      BlockBounds(code, starts, m);
      InsideUnique(code, starts, k, m, pc);
    }
  }

  /** A conditional jump is the last instruction of its block. */
  lemma CondJmpEndsBlock(code: seq<AtomicInstr>, starts: seq<int>, k: nat, pc: int)
    requires Laid(code, starts) && Inside(code, starts, k, pc) && 0 <= pc < |code|
    requires code[pc].kind.CondJmp?
    ensures pc == EndOf(code, starts, k) - 1
  {
    ExitsAreLeaders(code, starts, pc);
    BlockBounds(code, starts, k);
    if pc + 1 < EndOf(code, starts, k) {
      InteriorNotLeader(code, starts, k, pc + 1);
    }
  }

  // ------------------------------------------------------------- hypotheses

  /** The instruction after each unconditional jump but the last one is a leader. */
  ghost predicate JumpsEndBlocks(code: seq<AtomicInstr>) {
    forall i :: 0 <= i < |code| - 1 && code[i].kind.Jmp? ==> IsLeader(code, i + 1)
  }

  /** No block that the graph reaches has an unconditional jump before its end. */
  ghost predicate NoInteriorJump(code: seq<AtomicInstr>, starts: seq<int>)
    requires Laid(code, starts)
  {
    forall k: nat, pc :: 0 <= pc < |code| && Reachable(BlockGraph(code, starts), k)
                         && Inside(code, starts, k, pc) && code[pc].kind.Jmp? ==>
      pc == EndOf(code, starts, k) - 1
  }

  lemma JumpsEndBlocksSuffices(code: seq<AtomicInstr>, starts: seq<int>)
    requires Laid(code, starts) && JumpsEndBlocks(code)
    ensures NoInteriorJump(code, starts)
  {
    forall k: nat, pc | 0 <= pc < |code| && Inside(code, starts, k, pc) && code[pc].kind.Jmp?
      ensures pc == EndOf(code, starts, k) - 1
    {
      BlockBounds(code, starts, k);
      if pc + 1 < EndOf(code, starts, k) {
        InteriorNotLeader(code, starts, k, pc + 1);
      }
    }
  }

  // ----------------------------------------------------- blocks of one walk

  /** The positions of block `k`, in order. */
  ghost function Span(code: seq<AtomicInstr>, starts: seq<int>, k: nat): (span: seq<int>)
    requires Laid(code, starts) && k < |starts|
    ensures |span| == EndOf(code, starts, k) - starts[k] > 0
    ensures forall i :: 0 <= i < |span| ==> span[i] == starts[k] + i
  {
    BlockBounds(code, starts, k);
    seq(EndOf(code, starts, k) - starts[k], i => starts[k] + i)
  }

  /** The positions of the blocks of a walk, one block behind the other. */
  ghost function Concat(code: seq<AtomicInstr>, starts: seq<int>, walk: seq<nat>): (run: seq<int>)
    requires Laid(code, starts) && forall i :: 0 <= i < |walk| ==> walk[i] < |starts|
  {
    if walk == [] then []
    else Concat(code, starts, walk[..|walk| - 1]) + Span(code, starts, walk[|walk| - 1])
  }

  // ------------------------------------------------------------- one step

  /** Inside a block control falls through. */
  lemma StepInside(code: seq<AtomicInstr>, starts: seq<int>, k: nat, pc: int, next: int)
    requires Laid(code, starts) && NoInteriorJump(code, starts) && Reachable(BlockGraph(code, starts), k)
    requires Inside(code, starts, k, pc) && pc + 1 < EndOf(code, starts, k)
    ensures Step(code, pc, next) <==> next == pc + 1
  {
    BlockBounds(code, starts, k);
    if code[pc].kind.CondJmp? {
      CondJmpEndsBlock(code, starts, k, pc);
    }
  }

  /** At the end of a block control goes to the start of a successor. */
  lemma StepAcross(code: seq<AtomicInstr>, starts: seq<int>, k: nat, next: int)
    requires Laid(code, starts) && k < |starts|
    ensures Step(code, EndOf(code, starts, k) - 1, next)
            <==> exists t: nat :: Edge(BlockGraph(code, starts), k, t) && starts[t] == next
  {
    BlockBounds(code, starts, k);
    BlockLeadsTo(code, starts, k);
    var g := BlockGraph(code, starts);
    if Step(code, EndOf(code, starts, k) - 1, next) {
      assert Edge(g, k, IndexOf(starts, next));
    }
    if t: nat :| Edge(g, k, t) && starts[t] == next {
      LeadersInRange(code, starts);
    }
  }

  // ------------------------------------------------------------ walk to run

  lemma RunAppendSpan(code: seq<AtomicInstr>, starts: seq<int>, run: seq<int>, k: nat)
    requires Laid(code, starts) && NoInteriorJump(code, starts) && Reachable(BlockGraph(code, starts), k)
    requires k < |starts|
    requires run == [] || (Run(code, run) && Step(code, run[|run| - 1], starts[k]))
    ensures Run(code, run + Span(code, starts, k))
  {
    BlockBounds(code, starts, k);
    var span := Span(code, starts, k);
    var all := run + span;
    forall i | 0 <= i < |all| - 1
      ensures Step(code, all[i], all[i + 1])
    {
      if i >= |run| {
        assert all[i] == starts[k] + (i - |run|) && all[i + 1] == all[i] + 1;
        StepInside(code, starts, k, all[i], all[i + 1]);
      }
    }
  }

  /** A run that ends with block `m` goes on with any successor of `m`. */
  lemma RunAppendBlock(code: seq<AtomicInstr>, starts: seq<int>, run: seq<int>, m: nat, k: nat)
    requires Laid(code, starts) && NoInteriorJump(code, starts) && Reachable(BlockGraph(code, starts), k)
    requires m < |starts| && RunTo(code, run, EndOf(code, starts, m) - 1) && Edge(BlockGraph(code, starts), m, k)
    ensures RunTo(code, run + Span(code, starts, k), EndOf(code, starts, k) - 1)
  {
    StepAcross(code, starts, m, starts[k]);
    RunAppendSpan(code, starts, run, k);
  }

  /** Along every walk from the entry the blocks form a run of the program. */
  lemma {:induction false} WalkIsRun(code: seq<AtomicInstr>, starts: seq<int>, walk: seq<nat>, k: nat)
    requires Laid(code, starts) && NoInteriorJump(code, starts)
    requires PathTo(BlockGraph(code, starts), walk, k)
    ensures RunTo(code, Concat(code, starts, walk), EndOf(code, starts, k) - 1)
    decreases |walk|
  {
    var g := BlockGraph(code, starts);
    assert Reachable(g, k);
    LeadersInRange(code, starts);
    var front := walk[..|walk| - 1];
    if |walk| == 1 {
      assert Concat(code, starts, front) == [];
      RunAppendSpan(code, starts, [], k);
    } else {
      var m := walk[|walk| - 2];
      assert Edge(g, m, walk[|walk| - 2 + 1]);
      PathPrefix(g, walk, g.header, k, |walk| - 2);
      WalkIsRun(code, starts, front, m);
      RunAppendBlock(code, starts, Concat(code, starts, front), m, k);
    }
  }

  // ------------------------------------------------------------ run to walk

  /** The run is the blocks of the walk `front` followed by block `k` up to `pc`. */
  ghost predicate Follows(code: seq<AtomicInstr>, starts: seq<int>, run: seq<int>, front: seq<nat>, k: nat, pc: int)
    requires Laid(code, starts)
  {
    && PathTo(BlockGraph(code, starts), front + [k], k) && Inside(code, starts, k, pc)
    && (forall i :: 0 <= i < |front| ==> front[i] < |starts|)
    && run == Concat(code, starts, front) + Span(code, starts, k)[..pc - starts[k] + 1]
  }

  lemma {:induction false} ConcatSnoc(code: seq<AtomicInstr>, starts: seq<int>, front: seq<nat>, k: nat)
    requires Laid(code, starts) && k < |starts| && forall i :: 0 <= i < |front| ==> front[i] < |starts|
    ensures Concat(code, starts, front + [k]) == Concat(code, starts, front) + Span(code, starts, k)
  {
  }

  lemma SpanPieces(code: seq<AtomicInstr>, starts: seq<int>, k: nat)
    requires Laid(code, starts) && k < |starts|
    ensures Span(code, starts, k)[..1] == [starts[k]]
    ensures Span(code, starts, k)[..EndOf(code, starts, k) - starts[k]] == Span(code, starts, k)
  {
  }

  lemma FollowsInside(code: seq<AtomicInstr>, starts: seq<int>, run: seq<int>, front: seq<nat>, k: nat, pc: int)
    requires Laid(code, starts) && Follows(code, starts, run, front, k, pc)
    requires pc + 1 < EndOf(code, starts, k)
    ensures Follows(code, starts, run + [pc + 1], front, k, pc + 1)
  {
  }

  lemma FollowsAcross(code: seq<AtomicInstr>, starts: seq<int>, run: seq<int>, front: seq<nat>, k: nat, pc: int, t: nat)
    requires Laid(code, starts) && Follows(code, starts, run, front, k, pc)
    requires pc == EndOf(code, starts, k) - 1 && Edge(BlockGraph(code, starts), k, t)
    ensures Follows(code, starts, run + [starts[t]], front + [k], t, starts[t])
  {
    PathAppend(BlockGraph(code, starts), front + [k], 0, k, t);
    BlockBounds(code, starts, t);
    SpanFull(code, starts, run, front, k, pc);
    SpanPieces(code, starts, t);
  }

  lemma {:induction false} SpanFull(code: seq<AtomicInstr>, starts: seq<int>, run: seq<int>, front: seq<nat>, k: nat,
                                    pc: int)
    requires Laid(code, starts) && Follows(code, starts, run, front, k, pc) && pc == EndOf(code, starts, k) - 1
    ensures run == Concat(code, starts, front + [k])
  {
  }

  lemma FollowsStart(code: seq<AtomicInstr>, starts: seq<int>)
    requires Laid(code, starts)
    ensures Follows(code, starts, [0], [], 0, 0)
  {
    LeadersInRange(code, starts);
    BlockBounds(code, starts, 0);
    assert [] + [0] == [0];
    SpanPieces(code, starts, 0);
  }

  /** One more step, inside the block or across its end. */
  lemma FollowsStep(code: seq<AtomicInstr>, starts: seq<int>, run: seq<int>, front: seq<nat>, k: nat, pc: int,
                    next: int)
    returns (front': seq<nat>, k': nat)
    requires Laid(code, starts) && NoInteriorJump(code, starts)
    requires Follows(code, starts, run, front, k, pc) && Step(code, pc, next)
    ensures Follows(code, starts, run + [next], front', k', next)
  {
    assert Reachable(BlockGraph(code, starts), k);
    if pc + 1 < EndOf(code, starts, k) {
      front', k' := front, k;
      StepInside(code, starts, k, pc, next);
      FollowsInside(code, starts, run, front, k, pc);
    } else {
      StepAcross(code, starts, k, next);
      var t: nat :| Edge(BlockGraph(code, starts), k, t) && starts[t] == next;
      front', k' := front + [k], t;
      FollowsAcross(code, starts, run, front, k, pc, t);
    }
  }

  /** Every run from the start of the program follows a walk in the graph. */
  lemma {:induction false} RunIsWalk(code: seq<AtomicInstr>, starts: seq<int>, run: seq<int>, pc: int)
    returns (front: seq<nat>, k: nat)
    requires Laid(code, starts) && NoInteriorJump(code, starts) && RunTo(code, run, pc)
    ensures Follows(code, starts, run, front, k, pc)
    decreases |run|
  {
    if |run| == 1 {
      front, k := [], 0;
      FollowsStart(code, starts);
      assert run == [0];
    } else {
      var before := run[|run| - 2];
      assert Step(code, before, run[|run| - 2 + 1]);
      front, k := RunIsWalk(code, starts, run[..|run| - 1], before);
      assert run == run[..|run| - 1] + [pc];
      front, k := FollowsStep(code, starts, run[..|run| - 1], front, k, before, pc);
    }
  }

  // ------------------------------------------------------------- both ways

  /** The runs that end at the end of block `k` are exactly the block sequences of the
      walks to `k`. */
  ghost predicate PreservesControlFlow(code: seq<AtomicInstr>, starts: seq<int>)
    requires Laid(code, starts)
  {
    forall run: seq<int>, k: nat :: k < |starts| ==>
      (RunTo(code, run, EndOf(code, starts, k) - 1) <==> IsWalkRun(code, starts, run, k))
  }

  ghost predicate IsWalkRun(code: seq<AtomicInstr>, starts: seq<int>, run: seq<int>, k: nat)
    requires Laid(code, starts)
  {
    exists walk :: PathTo(BlockGraph(code, starts), walk, k) && Concat(code, starts, walk) == run
  }

  lemma RunToEnd(code: seq<AtomicInstr>, starts: seq<int>, run: seq<int>, k: nat)
    requires Laid(code, starts) && NoInteriorJump(code, starts) && k < |starts|
    requires RunTo(code, run, EndOf(code, starts, k) - 1)
    ensures IsWalkRun(code, starts, run, k)
  {
    BlockBounds(code, starts, k);
    var front, m := RunIsWalk(code, starts, run, EndOf(code, starts, k) - 1);
    InsideUnique(code, starts, k, m, EndOf(code, starts, k) - 1);
    var span := Span(code, starts, k);
    assert span[..EndOf(code, starts, k) - 1 - starts[k] + 1] == span;
    ConcatSnoc(code, starts, front, k);
    assert Concat(code, starts, front + [k]) == run;
  }

  /** A walk to a block with an interior jump is no run: the jump leaves the block. */
  lemma InteriorJumpBreaks(code: seq<AtomicInstr>, starts: seq<int>, k: nat, pc: int)
    requires Laid(code, starts) && Reachable(BlockGraph(code, starts), k)
    requires Inside(code, starts, k, pc) && 0 <= pc < |code| && code[pc].kind.Jmp? && pc + 1 < EndOf(code, starts, k)
    ensures !PreservesControlFlow(code, starts)
  {
    var g := BlockGraph(code, starts);
    var walk :| PathTo(g, walk, k);
    var run := Concat(code, starts, walk);
    assert IsWalkRun(code, starts, run, k);
    var at := |Concat(code, starts, walk[..|walk| - 1])| + pc - starts[k];
    assert run[at] == pc && run[at + 1] == pc + 1;
    ExitsAreLeaders(code, starts, pc);
    InteriorNotLeader(code, starts, k, pc + 1);
    assert !Step(code, run[at], run[at + 1]);
    assert !RunTo(code, run, EndOf(code, starts, k) - 1);
  }

  /** The graph preserves control flow if and only if no reachable block has an
      unconditional jump before its end. */
  lemma ControlFlowPreservedIff(code: seq<AtomicInstr>, starts: seq<int>)
    requires Laid(code, starts)
    ensures PreservesControlFlow(code, starts) <==> NoInteriorJump(code, starts)
  {
    if NoInteriorJump(code, starts) {
      forall run: seq<int>, k: nat | k < |starts|
        ensures RunTo(code, run, EndOf(code, starts, k) - 1) <==> IsWalkRun(code, starts, run, k)
      {
        if RunTo(code, run, EndOf(code, starts, k) - 1) {
          RunToEnd(code, starts, run, k);
        }
        if IsWalkRun(code, starts, run, k) {
          var walk :| PathTo(BlockGraph(code, starts), walk, k) && Concat(code, starts, walk) == run;
          WalkIsRun(code, starts, walk, k);
        }
      }
    } else {
      var k: nat, pc :| 0 <= pc < |code| && Reachable(BlockGraph(code, starts), k)
                        && Inside(code, starts, k, pc) && code[pc].kind.Jmp? && pc != EndOf(code, starts, k) - 1;
      InteriorJumpBreaks(code, starts, k, pc);
    }
  }
}
