/** Leader discovery: the positions at which basic blocks start. */
module Leaders {
  import opened IntermediateRepresentation

  /** What the graph construction assumes of its input: instruction `i` carries offset
      `i`, jumps stay inside the program, and a conditional jump is not last. */
  ghost predicate ProgramOk(code: seq<AtomicInstr>) {
    && |code| > 0
    && (forall i :: 0 <= i < |code| ==> code[i].offset == i)
    && (forall i :: 0 <= i < |code| && IsJump(code[i]) ==> 0 <= Target(code[i]) < |code|)
    && !code[|code| - 1].kind.CondJmp?
  }

  /** Position 0, the jump targets, and the positions after conditional jumps. */
  ghost predicate IsLeader(code: seq<AtomicInstr>, x: int) {
    x == 0 || exists i :: 0 <= i < |code| && LeaderFrom(code[i], i, x)
  }

  ghost predicate LeaderFrom(instr: AtomicInstr, i: int, x: int) {
    IsJump(instr) && (x == Target(instr) || (instr.kind.CondJmp? && x == i + 1))
  }

  /** The entries that the first `n` instructions write to the buffer. */
  function Entries(code: seq<AtomicInstr>, n: nat): (entries: seq<int>)
    requires n <= |code|
    ensures |entries| > 0
  {
    if n == 0 then [0]
    else
      Entries(code, n - 1) +
      match code[n - 1].kind
      case Jmp => [Target(code[n - 1])]
      case CondJmp => [Target(code[n - 1]), code[n - 1].offset + 1]
      case _ => []
  }

  /** The buffer, which has one slot per instruction, is large enough. */
  ghost predicate BufferSuffices(code: seq<AtomicInstr>) {
    |Entries(code, |code|)| <= |code|
  }

  function CountKind(code: seq<AtomicInstr>, n: nat, kind: AtomicKind): nat
    requires n <= |code|
  {
    if n == 0 then 0 else CountKind(code, n - 1, kind) + if code[n - 1].kind == kind then 1 else 0
  }

  lemma {:induction false} EntriesCount(code: seq<AtomicInstr>, n: nat)
    requires n <= |code|
    ensures |Entries(code, n)| == 1 + CountKind(code, n, Jmp) + 2 * CountKind(code, n, CondJmp)
  {
    if n == 0 {
    } else {
      EntriesCount(code, n - 1);
    }
  }

  /** The buffer is large enough exactly if one slot for the start, one for each jump and two
      for each conditional jump are no more than there are instructions. */
  lemma {:induction false} BufferSufficesIff(code: seq<AtomicInstr>)
    ensures BufferSuffices(code)
            <==> 1 + CountKind(code, |code|, Jmp) + 2 * CountKind(code, |code|, CondJmp) <= |code|
  {
    EntriesCount(code, |code|);
  }

  lemma {:induction false} EntriesGrow(code: seq<AtomicInstr>, n: nat)
    requires n <= |code|
    ensures |Entries(code, n)| <= |Entries(code, |code|)|
    decreases |code| - n
  {
    if n == |code| {
    } else {
      EntriesGrow(code, n + 1);
    }
  }

  lemma {:induction false} EntriesAre(code: seq<AtomicInstr>, n: nat, x: int)
    requires n <= |code| && forall i :: 0 <= i < |code| ==> code[i].offset == i
    ensures x in Entries(code, n) <==> x == 0 || exists i :: 0 <= i < n && LeaderFrom(code[i], i, x)
  {
    if n == 0 {
    } else {
      EntriesAre(code, n - 1, x);
      assert LeaderFrom(code[n - 1], n - 1, x) ==> x in Entries(code, n);
    }
  }

  // ---------------------------------------------------------------- sorting

  predicate Sorted(s: seq<int>) {
    forall i, j :: 0 <= i < j < |s| ==> s[i] <= s[j]
  }

  function Insert(x: int, s: seq<int>): (r: seq<int>)
    requires Sorted(s)
    ensures Sorted(r) && multiset(r) == multiset(s) + multiset{x}
  {
    if s == [] || x <= s[0] then [x] + s
    else
      var rest := Insert(x, s[1..]);
      InsertHead(x, s, rest);
      [s[0]] + rest
  }

  lemma InsertHead(x: int, s: seq<int>, rest: seq<int>)
    requires Sorted(s) && s != [] && s[0] < x && Sorted(rest)
    requires multiset(rest) == multiset(s[1..]) + multiset{x}
    ensures Sorted([s[0]] + rest) && multiset([s[0]] + rest) == multiset(s) + multiset{x}
  {
    assert s == [s[0]] + s[1..];
    forall i | 0 <= i < |rest|
      ensures s[0] <= rest[i]
    {
      assert rest[i] in multiset(rest);
      assert rest[i] == x || rest[i] in s[1..];
    }
  }

  function SortInts(s: seq<int>): (r: seq<int>)
    ensures Sorted(r) && multiset(r) == multiset(s) && |r| == |s|
  {
    if s == [] then []
    else
      assert s == [s[0]] + s[1..];
      var r := Insert(s[0], SortInts(s[1..]));
      assert |multiset(r)| == |multiset(s)|;
      r
  }

  /** The C library's sort of the first `n` elements. */
  method QSort(a: array<int>, n: nat)
    requires n <= a.Length
    modifies a
    ensures a[..n] == SortInts(old(a[..n])) && a[n..] == old(a[n..])
  {
    var sorted := SortInts(a[..n]);
    for i := 0 to n
      invariant a[..i] == sorted[..i] && a[n..] == old(a[n..])
    {
      a[i] := sorted[i];
    }
  }

  lemma {:induction false} SortedSameElements(s: seq<int>, x: int)
    ensures x in SortInts(s) <==> x in s
  {
    assert x in multiset(SortInts(s)) <==> x in multiset(s);
  }

  // ---------------------------------------------------------- deduplication

  ghost predicate Ordered(s: seq<int>, i: int, j: int) {
    0 <= i < j < |s| ==> s[i] < s[j]
  }

  ghost predicate StrictlyIncreasing(s: seq<int>) {
    forall i, j :: Ordered(s, i, j)
  }

  /** The state of the in-place compaction before position `i`: the result so far is
      `a[..nb]`, positions from `nb` on are untouched. */
  ghost predicate Compacting(a: seq<int>, s: seq<int>, n: nat, nb: nat, i: nat) {
    && nb <= i <= n == |s| && n <= |a|
    && StrictlyIncreasing(a[..nb])
    && (forall x :: x in a[..nb] <==> x in s[..i])
    && (forall k :: nb <= k < n ==> a[k] == s[k])
    && (i > 0 ==> nb > 0 && a[nb - 1] == s[i - 1])
  }

  lemma CompactKeep(a: seq<int>, s: seq<int>, n: nat, nb: nat, i: nat)
    requires Compacting(a, s, n, nb, i) && i < n && Sorted(s)
    requires i == 0 || a[i] != a[i - 1]
    ensures Compacting(a[nb := a[i]], s, n, nb + 1, i + 1)
  {
    var b := a[nb := a[i]];
    assert a[i] == s[i];
    assert i > 0 ==> a[i - 1] == s[i - 1];
    assert b[..nb + 1] == a[..nb] + [s[i]];
    assert s[..i + 1] == s[..i] + [s[i]];
    forall j: int, k: int {:trigger Ordered(b[..nb + 1], j, k)}
      ensures Ordered(b[..nb + 1], j, k)
    {
      assert Ordered(a[..nb], j, k) && Ordered(a[..nb], j, nb - 1);
    }
  }

  lemma CompactDrop(a: seq<int>, s: seq<int>, n: nat, nb: nat, i: nat)
    requires Compacting(a, s, n, nb, i) && 0 < i < n
    requires a[i] == a[i - 1]
    ensures Compacting(a, s, n, nb, i + 1)
  {
  }

  /** Removes the duplicates of the sorted prefix `a[..n]` in place. */
  method Deduplicate(a: array<int>, n: nat, ghost s: seq<int>) returns (nb: nat)
    requires n <= a.Length && a[..n] == s && Sorted(s)
    modifies a
    ensures nb <= n && (n > 0 ==> nb > 0)
    ensures StrictlyIncreasing(a[..nb]) && forall x :: x in a[..nb] <==> x in s
  {
    nb := 0;
    for i := 0 to n
      invariant Compacting(a[..], s, n, nb, i)
    {
      ghost var before := a[..];
      if i == 0 || a[i] != a[i - 1] {
        CompactKeep(before, s, n, nb, i);
        a[nb] := a[i];
        assert a[..] == before[nb := before[i]];
        nb := nb + 1;
      } else {
        CompactDrop(before, s, n, nb, i);
      }
    }
    assert s[..n] == s;
    assert a[..][..nb] == a[..nb];
  }

  // ------------------------------------------------------------- the pass

  /** `starts` are the leaders in increasing order. */
  ghost predicate LeaderList(code: seq<AtomicInstr>, starts: seq<int>) {
    && StrictlyIncreasing(starts)
    && forall x :: x in starts <==> IsLeader(code, x)
  }

  lemma LeadersInRange(code: seq<AtomicInstr>, starts: seq<int>)
    requires ProgramOk(code) && LeaderList(code, starts)
    ensures |starts| > 0 && starts[0] == 0
    ensures forall k :: 0 <= k < |starts| ==> 0 <= starts[k] < |code|
  {
    forall k | 0 <= k < |starts|
      ensures 0 <= starts[k] < |code|
    {
      assert starts[k] in starts;
    }
    assert IsLeader(code, 0);
    var k :| 0 <= k < |starts| && starts[k] == 0;
    assert Ordered(starts, 0, k);
  }

  lemma PositiveAfterFirst(code: seq<AtomicInstr>, starts: seq<int>)
    requires ProgramOk(code) && LeaderList(code, starts)
    ensures forall k :: 0 < k < |starts| ==> 0 < starts[k] <= |code|
  {
    LeadersInRange(code, starts);
    forall k | 0 < k < |starts|
      ensures 0 < starts[k]
    {
      assert Ordered(starts, 0, k);
    }
  }

  /** One edge per pair of adjacent blocks, and one more if the first of them ends with
      an unconditional jump. */
  function EdgeRoom(code: seq<AtomicInstr>, starts: seq<int>, n: nat): (room: nat)
    requires n < |starts| && forall k :: 0 < k < |starts| ==> 0 < starts[k] <= |code|
    ensures n <= room <= 2 * n
  {
    if n == 0 then 0
    else EdgeRoom(code, starts, n - 1) + if code[starts[n] - 1].kind.Jmp? then 2 else 1
  }

  /** Block `k` of the list stands behind an unconditional jump. */
  predicate BehindJump(code: seq<AtomicInstr>, starts: seq<int>, k: int) {
    0 < k < |starts| && 0 < starts[k] <= |code| && code[starts[k] - 1].kind == Jmp
  }

  ghost function BehindJumps(code: seq<AtomicInstr>, starts: seq<int>, n: nat): set<int> {
    set k | 0 < k <= n && BehindJump(code, starts, k)
  }

  lemma BehindJumpsStep(code: seq<AtomicInstr>, starts: seq<int>, n: nat)
    ensures |BehindJumps(code, starts, n + 1)|
            == |BehindJumps(code, starts, n)| + if BehindJump(code, starts, n + 1) then 1 else 0
  {
    var before, after := BehindJumps(code, starts, n), BehindJumps(code, starts, n + 1);
    if BehindJump(code, starts, n + 1) {
      assert after == before + {n + 1};
    } else {
      assert after == before;
    }
  }

  /** The bound on the number of edges: one less than there are blocks, and one more for each
      block behind an unconditional jump. */
  lemma {:induction false} EdgeRoomIs(code: seq<AtomicInstr>, starts: seq<int>, n: nat)
    requires n < |starts| && forall k :: 0 < k < |starts| ==> 0 < starts[k] <= |code|
    ensures EdgeRoom(code, starts, n) == n + |BehindJumps(code, starts, n)|
  {
    if n == 0 {
      assert BehindJumps(code, starts, 0) == {};
    } else {
      EdgeRoomIs(code, starts, n - 1);
      BehindJumpsStep(code, starts, n - 1);
    }
  }

  /** The loop that fills the buffer. */
  method FillBuffer(code: seq<AtomicInstr>, list: array<int>) returns (count: nat)
    requires ProgramOk(code) && BufferSuffices(code) && list.Length == |code|
    modifies list
    ensures count <= list.Length && list[..count] == Entries(code, |code|)
  {
    EntriesGrow(code, 0);
    count := 0;
    list[count] := 0;
    count := count + 1;
    for i := 0 to |code|
      invariant count <= list.Length && list[..count] == Entries(code, i)
    {
      EntriesGrow(code, i + 1);
      var op := code[i];
      if op.kind == Jmp {
        list[count] := Target(op);
        count := count + 1;
      } else if op.kind == CondJmp {
        list[count] := Target(op);
        count := count + 1;
        list[count] := op.offset + 1;
        count := count + 1;
      }
    }
  }

  /** The loop that bounds the number of edges. */
  method CountEdges(code: seq<AtomicInstr>, list: array<int>) returns (nbEdges: nat)
    requires list.Length > 0 && forall k :: 0 < k < list.Length ==> 0 < list[k] <= |code|
    ensures nbEdges == list.Length - 1 + |BehindJumps(code, list[..], list.Length - 1)|
    ensures nbEdges == EdgeRoom(code, list[..], list.Length - 1)
  {
    EdgeRoomIs(code, list[..], list.Length - 1);
    nbEdges := 0;
    for i := 0 to list.Length - 1
      invariant nbEdges == EdgeRoom(code, list[..], i)
    {
      if code[list[i + 1] - 1].kind == Jmp {
        nbEdges := nbEdges + 1;
      }
      nbEdges := nbEdges + 1;
    }
  }

  lemma {:induction false} EntriesAreLeaders(code: seq<AtomicInstr>, sorted: seq<int>, starts: seq<int>)
    requires ProgramOk(code) && StrictlyIncreasing(starts) && sorted == SortInts(Entries(code, |code|))
    requires forall x :: x in starts <==> x in sorted
    ensures LeaderList(code, starts) && |starts| > 0 && starts[0] == 0
    ensures forall k :: 0 < k < |starts| ==> 0 < starts[k] <= |code|
  {
    forall x
      ensures x in starts <==> IsLeader(code, x)
    {
      SortedSameElements(Entries(code, |code|), x);
      EntriesAre(code, |code|, x);
    }
    LeadersInRange(code, starts);
    PositiveAfterFirst(code, starts);
  }

  /** A buffer of exactly the first `n` elements. */
  method Shrink(buffer: array<int>, n: nat) returns (list: array<int>)
    requires n <= buffer.Length
    ensures fresh(list) && list.Length == n && list[..] == buffer[..n]
  {
    list := new int[n];
    for i := 0 to n
      modifies list
      invariant list[..i] == buffer[..i]
    {
      list[i] := buffer[i];
    }
  }

  /** The first part: fills, sorts and compacts the buffer. */
  method FindLeaders(code: seq<AtomicInstr>) returns (list: array<int>)
    requires ProgramOk(code) && BufferSuffices(code)
    ensures fresh(list) && list.Length > 0 && LeaderList(code, list[..])
    ensures list[0] == 0 && forall k :: 0 < k < list.Length ==> 0 < list[k] <= |code|
  {
    var buffer := new int[|code|];
    var count := FillBuffer(code, buffer);
    QSort(buffer, count);
    ghost var sorted := SortInts(Entries(code, |code|));
    var nbBasicNodes := Deduplicate(buffer, count, sorted);
    list := Shrink(buffer, nbBasicNodes);
    EntriesAreLeaders(code, sorted, list[..]);
  }

  /** The leaders in increasing order, and an upper bound for the number of edges that
      the graph construction records. */
  method GetInfoGraph(code: seq<AtomicInstr>) returns (list: array<int>, nbBasicNodes: nat, nbEdges: nat)
    requires ProgramOk(code) && BufferSuffices(code)
    ensures fresh(list) && list.Length == nbBasicNodes > 0 && LeaderList(code, list[..])
    ensures list[0] == 0 && forall k :: 0 < k < nbBasicNodes ==> 0 < list[k] <= |code|
    ensures nbEdges == nbBasicNodes - 1 + |BehindJumps(code, list[..], nbBasicNodes - 1)|
    ensures nbEdges == EdgeRoom(code, list[..], nbBasicNodes - 1)
  {
    list := FindLeaders(code);
    nbBasicNodes := list.Length;
    nbEdges := CountEdges(code, list);
  }
}
