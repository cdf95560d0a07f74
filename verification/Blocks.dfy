/** The basic blocks of a program and the graph they form, as values. */
module Blocks {
  import opened Graphs
  import opened IntermediateRepresentation
  import opened Leaders

  ghost predicate Laid(code: seq<AtomicInstr>, starts: seq<int>) {
    ProgramOk(code) && LeaderList(code, starts)
  }

  /** The position after the last instruction of block `k`. */
  function EndOf(code: seq<AtomicInstr>, starts: seq<int>, k: nat): int
    requires k < |starts|
  {
    if k + 1 < |starts| then starts[k + 1] else |code|
  }

  /** Blocks are non-empty and lie one behind the other. */
  lemma BlockBounds(code: seq<AtomicInstr>, starts: seq<int>, k: nat)
    requires Laid(code, starts) && k < |starts|
    ensures 0 <= starts[k] < EndOf(code, starts, k) <= |code|
    ensures starts[0] == 0 && EndOf(code, starts, |starts| - 1) == |code|
  {
    LeadersInRange(code, starts);
    assert Ordered(starts, k, k + 1);
  }

  /** The position of `x` in the list. */
  ghost function IndexOf(starts: seq<int>, x: int): (k: nat)
    requires x in starts
    ensures k < |starts| && starts[k] == x
  {
    var k: nat :| k < |starts| && starts[k] == x;
    k
  }

  lemma IndexOfStart(starts: seq<int>, k: nat)
    requires StrictlyIncreasing(starts) && k < |starts|
    ensures IndexOf(starts, starts[k]) == k
  {
    var m := IndexOf(starts, starts[k]);
    assert Ordered(starts, m, k) && Ordered(starts, k, m);
  }

  lemma IndexOfZero(code: seq<AtomicInstr>, starts: seq<int>, x: int)
    requires Laid(code, starts) && x in starts
    ensures |starts| > 0 && (IndexOf(starts, x) == 0 <==> x == 0)
  {
    LeadersInRange(code, starts);
    assert Ordered(starts, 0, IndexOf(starts, x));
  }

  /** The last instruction of a block decides where control goes next. */
  lemma ExitsAreLeaders(code: seq<AtomicInstr>, starts: seq<int>, i: int)
    requires Laid(code, starts) && 0 <= i < |code|
    ensures IsJump(code[i]) ==> Target(code[i]) in starts
    ensures code[i].kind.CondJmp? ==> i + 1 in starts
  {
  }

  /** Control leaves its block at position `last`. */
  ghost predicate LeavesAt(code: seq<AtomicInstr>, starts: seq<int>, last: int) {
    0 <= last < |code| && (last == |code| - 1 || last + 1 in starts || code[last].kind.Jmp?)
  }

  /** The positions at which control may continue after `last`, in the order in which the
      construction follows them. */
  ghost function Exits(code: seq<AtomicInstr>, starts: seq<int>, last: int): (exits: seq<int>)
    requires Laid(code, starts) && LeavesAt(code, starts, last)
    ensures forall i :: 0 <= i < |exits| ==> exits[i] in starts
  {
    ExitsAreLeaders(code, starts, last);
    match code[last].kind
    case Jmp => [Target(code[last])]
    case CondJmp => [Target(code[last]), last + 1]
    case _ => if last == |code| - 1 then [] else [last + 1]
  }

  ghost function Successors(code: seq<AtomicInstr>, starts: seq<int>, last: int): (succs: seq<nat>)
    requires Laid(code, starts) && LeavesAt(code, starts, last)
    ensures |succs| == |Exits(code, starts, last)|
    ensures forall i :: 0 <= i < |succs| ==> succs[i] == IndexOf(starts, Exits(code, starts, last)[i]) < |starts|
  {
    var exits := Exits(code, starts, last);
    seq(|exits|, i requires 0 <= i < |exits| => IndexOf(starts, exits[i]))
  }

  /** Control leaves block `k` at its last position, at the latest. */
  lemma EndLeaves(code: seq<AtomicInstr>, starts: seq<int>, k: nat)
    requires Laid(code, starts) && k < |starts|
    ensures LeavesAt(code, starts, EndOf(code, starts, k) - 1)
  {
    BlockBounds(code, starts, k);
  }

  ghost function BlockSuccessors(code: seq<AtomicInstr>, starts: seq<int>, k: nat): (succs: seq<nat>)
    requires Laid(code, starts) && k < |starts|
    ensures forall i :: 0 <= i < |succs| ==> succs[i] < |starts|
  {
    EndLeaves(code, starts, k);
    Successors(code, starts, EndOf(code, starts, k) - 1)
  }

  /** The graph of all blocks; the entry is the block at position 0. */
  ghost function BlockGraph(code: seq<AtomicInstr>, starts: seq<int>): (g: Graph)
    requires Laid(code, starts)
    ensures WellFormed(g) && |g.succs| == |starts| && g.header == 0
    ensures forall k :: 0 <= k < |starts| ==> g.succs[k] == BlockSuccessors(code, starts, k)
  {
    LeadersInRange(code, starts);
    Graph(seq(|starts|, k requires 0 <= k < |starts| => BlockSuccessors(code, starts, k)), 0)
  }

  /** What the last instruction of block `k` says about its successors. */
  ghost predicate LeadsTo(code: seq<AtomicInstr>, starts: seq<int>, succs: seq<nat>, last: int)
    requires 0 <= last < |code|
  {
    match code[last].kind
    case Jmp =>
      Target(code[last]) in starts && succs == [IndexOf(starts, Target(code[last]))]
    case CondJmp =>
      && Target(code[last]) in starts && last + 1 in starts
      && succs == [IndexOf(starts, Target(code[last])), IndexOf(starts, last + 1)]
    case _ =>
      if last == |code| - 1 then succs == [] else last + 1 in starts && succs == [IndexOf(starts, last + 1)]
  }

  lemma SuccessorsLeadTo(code: seq<AtomicInstr>, starts: seq<int>, last: int)
    requires Laid(code, starts) && LeavesAt(code, starts, last)
    ensures LeadsTo(code, starts, Successors(code, starts, last), last)
  {
    ExitsAreLeaders(code, starts, last);
  }

  lemma BlockLeadsTo(code: seq<AtomicInstr>, starts: seq<int>, k: nat)
    requires Laid(code, starts) && k < |starts|
    ensures 0 <= EndOf(code, starts, k) - 1 < |code|
    ensures LeadsTo(code, starts, BlockGraph(code, starts).succs[k], EndOf(code, starts, k) - 1)
  {
    EndLeaves(code, starts, k);
    SuccessorsLeadTo(code, starts, EndOf(code, starts, k) - 1);
    assert BlockGraph(code, starts).succs[k] == BlockSuccessors(code, starts, k);
  }
}
