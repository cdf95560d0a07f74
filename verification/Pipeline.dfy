/** From the intermediate representation to dominators and dominance frontiers. */
module Pipeline {
  import opened Graphs
  import opened DepthFirst
  import opened DominatorTree
  import opened PostOrder
  import opened ControlFlowGraph
  import opened IntermediateRepresentation
  import opened Leaders
  import opened Blocks
  import opened BuildState
  import opened BuildGraph
  import opened Simulation
  import opened Dominance
  import opened Frontier
  import opened Asm
  import opened Lifter
  import opened Tokens
  import opened Rendering
  import opened RoundTrip
  import P = Parser
  import L = Lexer

  /** The final dominator chains speak about the program itself: block `a` is on the
      chain of block `b` if and only if every run from the start of the program to the
      first instruction of `b` passes the first instruction of `a`. */
  lemma {:induction false} ChainIsInstructionDominance(code: seq<AtomicInstr>, starts: seq<int>, num: seq<int>,
                                                       dom: seq<int>, a: nat, b: nat)
    requires Laid(code, starts) && SameExits(code, starts) && a < |starts| && b < |starts|
    requires Exact(BlockGraph(code, starts), num, dom)
    ensures a in Chain(BlockGraph(code, starts), num, dom, b) <==> InstructionDominates(code, starts[a], starts[b])
  {
    BlockDominanceIff(code, starts, a, b);
  }

  ghost predicate ChainsAreInstructionDominance(code: seq<AtomicInstr>, starts: seq<int>, num: seq<int>, dom: seq<int>)
    requires Laid(code, starts) && Exact(BlockGraph(code, starts), num, dom)
  {
    forall a: nat, b: nat :: a < |starts| && b < |starts| ==>
      (a in Chain(BlockGraph(code, starts), num, dom, b) <==> InstructionDominates(code, starts[a], starts[b]))
  }

  /** They do so for all blocks exactly if dead code behind jumps does not change the
      dominators of the graph. */
  lemma {:induction false} ChainsAreInstructionDominanceIff(code: seq<AtomicInstr>, starts: seq<int>, num: seq<int>,
                                                            dom: seq<int>)
    requires Laid(code, starts) && Exact(BlockGraph(code, starts), num, dom)
    ensures ChainsAreInstructionDominance(code, starts, num, dom)
            <==> SameDominators(BlockGraph(code, starts), CutGraph(code, starts))
  {
    var g := BlockGraph(code, starts);
    DominanceAgreesIff(code, starts);
    forall a: nat, b: nat | a < |starts| && b < |starts|
      ensures a in Chain(g, num, dom, b) <==> Dominates(g, a, b)
    {
    }
  }

  /** The edges that the construction recorded are the calls of the search that numbers the
      nodes, in the same order: the k-th one leads from the depth-first parent, the caller,
      to the node with number k. All nodes but the header are reached by one of them. */
  ghost predicate TraversalsAgree(g: Graph, num: seq<int>, calls: seq<Arc>, edges: seq<Arc>) {
    && edges == calls && |edges| == |num| - 1
    && forall k :: 0 <= k < |edges| ==>
         && Edge(g, edges[k].start, edges[k].target)
         && edges[k].start < |num| && edges[k].target < |num|
         && num[edges[k].target] == k < num[edges[k].start]
  }

  lemma SearchCallsAgree(g: Graph, num: seq<int>, calls: seq<Arc>)
    requires WellFormed(g) && AllReachable(g) && PostOrderNumbers(g, num)
    requires calls == ExploreAll(g).tree
    ensures TraversalsAgree(g, num, calls, calls)
  {
    AllSeen(g);
    ExploreTree(g, g.header, 0, {g.header});
    forall k | 0 <= k < |calls|
      ensures Edge(g, calls[k].start, calls[k].target) && num[calls[k].start] > k
    {
      assert TreeEdgeOk(g, g.header, calls, k);
    }
  }

  /** The annotation pass over a graph that the construction delivered; it also returns the
      calls of its search. */
  method CfgToSsa(cfg: CFG, ghost g: Graph) returns (ghost calls: seq<Arc>)
    requires cfg.Linked(g) && AllReachable(g)
    requires AllFalse(cfg.visited[..]) && AllFalse(cfg.processed[..])
    requires forall v :: 0 <= v < cfg.nbNodes ==> cfg.dominator[v] == NULL && cfg.frontier[v] == EMPTY_LIST
    modifies cfg.visited, cfg.number, cfg.dominator, cfg.processed, cfg.frontier
    ensures PostOrderNumbers(g, cfg.number[..]) && Exact(g, cfg.number[..], cfg.dominator[..])
    ensures FrontierArrays(g, cfg.predecessors[..], cfg.frontier[..])
    ensures TraversalsAgree(g, cfg.number[..], calls, calls) && calls == ExploreAll(g).tree
  {
    ghost var passes;
    passes, calls := ComputeDominanceFrontier(cfg, g);
    SearchCallsAgree(g, cfg.number[..], calls);
  }

  /** What both steps need: room in the leader buffer, at least two leaders, and no
      unreachable block. */
  ghost predicate Analyzable(code: seq<AtomicInstr>) {
    && BufferSuffices(code) && (exists x :: x != 0 && IsLeader(code, x))
    && forall starts: seq<int> :: Laid(code, starts) ==> AllReachable(BlockGraph(code, starts))
  }

  /** What they deliver: postorder numbers, exact dominator chains, and frontiers of the
      block graph of the program, and that the two traversals of the graph agree. */
  ghost predicate Analyzed(code: seq<AtomicInstr>, starts: seq<int>, cfg: CFG, calls: seq<Arc>)
    reads cfg, cfg.number, cfg.dominator, cfg.edges, cfg.predecessors, cfg.frontier
  {
    && Laid(code, starts) && cfg.Valid() && cfg.edgeIdx <= cfg.nbEdges
    && PostOrderNumbers(BlockGraph(code, starts), cfg.number[..])
    && Exact(BlockGraph(code, starts), cfg.number[..], cfg.dominator[..])
    && FrontierArrays(BlockGraph(code, starts), cfg.predecessors[..], cfg.frontier[..])
    && TraversalsAgree(BlockGraph(code, starts), cfg.number[..], calls, cfg.edges[..cfg.edgeIdx])
  }

  /** Both steps, for a program all of whose blocks are reachable. `calls` are the calls of
      the search that numbered the nodes. */
  method Analyze(ir: IR) returns (cfg: CFG, ghost starts: seq<int>, ghost calls: seq<Arc>)
    requires ir.Valid() && ProgramOk(ir.Code()) && Analyzable(ir.Code())
    ensures fresh(cfg) && Analyzed(ir.Code(), starts, cfg, calls)
  {
    cfg, starts := IrToCfg(ir);
    ghost var g := BlockGraph(ir.Code(), starts);
    LinkableAll(g);
    ghost var edges := cfg.edges[..cfg.edgeIdx];
    calls := CfgToSsa(cfg, g);
    assert cfg.edges[..cfg.edgeIdx] == edges;
  }

  // -------------------------------------------------------------- front end

  lemma {:induction false} TextOutcome(program: seq<Instruction>, k: nat, nbInstructions: nat, ok: bool,
                                       found: seq<Token>, buffer: seq<Token>)
    requires program != [] && PrintableProgram(program, 0)
    requires found <= buffer && nbInstructions > 0
    requires L.LexFrom(Render(program, k)) == if ok then L.Lexed(found, nbInstructions - 1) else L.Rejected
    ensures ok && found == ProgramTokens(program)
    ensures k == 0 ==> P.ProgramAt(buffer, nbInstructions) == P.Ok(program, |found|)
    ensures k > 0 ==> !ComesBack(program, buffer, nbInstructions)
    ensures k > 0 && ZeroAt(buffer, |found|) ==> P.ProgramAt(buffer, nbInstructions) == P.Err(P.WrongOperand)
  {
    LexProgram(program, k);
    LexCounts(program, k, found, nbInstructions);
    CountDecides(program, k, found, buffer, nbInstructions);
    if k == 0 {
      TokensParse(program, found, buffer);
    }
  }

  /** Lexer and parser on the text of a program with `k` newlines behind it: without them
      the program comes back; with them it does not, and if the tokens leave two slots of
      the first token buffer, the parser fails on the line after the program. */
  method ReadText(text: string, ghost program: seq<Instruction>, ghost k: nat)
    returns (outcome: P.Outcome<seq<Instruction>>)
    requires program != [] && PrintableProgram(program, 0) && text == Render(program, k)
    ensures k == 0 ==> outcome == P.Success(program)
    ensures k > 0 ==> outcome != P.Success(program)
    ensures k > 0 && |ProgramTokens(program)| + 1 < INITIAL_TOKENS ==> outcome == P.Failure(P.WrongOperand)
  {
    var list, nbInstructions, ok := L.Lex(text);
    ghost var found, buffer := list.tokens[..list.tokenIndex], list.tokens[..];
    TextOutcome(program, k, nbInstructions, ok, found, buffer);
    assert |found| + 1 < INITIAL_TOKENS ==> ZeroAt(buffer, |found|);
    outcome := P.ParseAsm(list, nbInstructions);
  }

  /** The front end on the text of a program: what it hands to the back end is the
      lifting of the program. */
  method FrontEnd(text: string, raw: AddressReads, ghost program: seq<Instruction>) returns (ir: IR)
    requires program != [] && PrintableProgram(program, 0) && text == Render(program, 0)
    ensures fresh(ir) && fresh(ir.instrs) && ir.Valid()
    ensures AllShaped(program) && ir.Code() == Lifting(program, raw)
  {
    var outcome := ReadText(text, program, 0);
    ir := Lift(outcome.result, raw);
  }

  /** What lifting supplies to the graph construction: for a program without calls whose
      jumps stay inside and that does not end with a conditional jump, the code is as
      the construction assumes. */
  lemma {:induction false} LiftedProgramOk(program: seq<Instruction>, raw: AddressReads)
    requires AllShaped(program) && ImmediateJumps(program) && CallFree(program, |program|) && program != []
    requires TargetsInside(program) && !IsCondJump(program[|program| - 1].opcode)
    ensures ProgramOk(Lifting(program, raw))
  {
    var code := Lifting(program, raw);
    LengthKeptIff(program, |program|, raw);
    LiftedOffsets(program, |program|, raw);
    forall i | 0 <= i < |code|
      ensures IsJump(code[i]) ==> 0 <= Target(code[i]) < |code|
      ensures code[i].kind.CondJmp? ==> IsCondJump(program[i].opcode)
    {
      assert Some(code[i]) == Lifted(program[i], i, raw);
    }
  }

  // ------------------------------------------------------------ end to end

  /** Every run of the source program to position `to` passes position `at`. */
  ghost predicate AsmDominates(program: seq<Instruction>, at: int, to: int)
    requires ImmediateJumps(program)
  {
    forall run :: AsmRunTo(program, run, to) ==> at in run
  }

  /** What the final chains say about the source program. */
  ghost predicate ChainsAreAsmDominance(program: seq<Instruction>, raw: AddressReads, starts: seq<int>, num: seq<int>,
                                        dom: seq<int>)
    requires AllShaped(program) && ImmediateJumps(program) && Laid(Lifting(program, raw), starts)
    requires Exact(BlockGraph(Lifting(program, raw), starts), num, dom)
  {
    forall a: nat, b: nat :: a < |starts| && b < |starts| ==>
      (a in Chain(BlockGraph(Lifting(program, raw), starts), num, dom, b)
       <==> AsmDominates(program, starts[a], starts[b]))
  }

  lemma {:induction false} SourceDominance(program: seq<Instruction>, raw: AddressReads, a: int, b: int)
    requires AllShaped(program) && ImmediateJumps(program) && CallFree(program, |program|)
    ensures InstructionDominates(Lifting(program, raw), a, b) <==> AsmDominates(program, a, b)
  {
    forall run: seq<int>
      ensures RunTo(Lifting(program, raw), run, b) <==> AsmRunTo(program, run, b)
    {
      LiftingKeepsRuns(program, run, b, raw);
    }
  }

  /** Block `a` is on the final chain of block `b` exactly if every run of the source program
      to the start of `b` passes the start of `a`: this holds for all blocks if and only if
      dead code behind jumps does not change the dominators of the graph. */
  lemma {:induction false} ChainsSpeakAboutSource(program: seq<Instruction>, raw: AddressReads, starts: seq<int>,
                                                  num: seq<int>, dom: seq<int>)
    requires AllShaped(program) && ImmediateJumps(program) && CallFree(program, |program|)
    requires Laid(Lifting(program, raw), starts)
    requires Exact(BlockGraph(Lifting(program, raw), starts), num, dom)
    ensures ChainsAreAsmDominance(program, raw, starts, num, dom) <==>
            SameDominators(BlockGraph(Lifting(program, raw), starts), CutGraph(Lifting(program, raw), starts))
  {
    var code := Lifting(program, raw);
    ChainsAreInstructionDominanceIff(code, starts, num, dom);
    forall a: int, b: int
      ensures InstructionDominates(code, a, b) <==> AsmDominates(program, a, b)
    {
      SourceDominance(program, raw, a, b);
    }
  }

  /** From the text of a program to its dominators and dominance frontiers. */
  method AnalyzeText(text: string, raw: AddressReads, ghost program: seq<Instruction>)
    returns (cfg: CFG, ghost starts: seq<int>, ghost calls: seq<Arc>)
    requires program != [] && PrintableProgram(program, 0) && text == Render(program, 0)
    requires AllShaped(program) && ImmediateJumps(program) && CallFree(program, |program|)
    requires TargetsInside(program) && !IsCondJump(program[|program| - 1].opcode)
    requires Analyzable(Lifting(program, raw))
    ensures fresh(cfg) && Analyzed(Lifting(program, raw), starts, cfg, calls)
    ensures ChainsAreAsmDominance(program, raw, starts, cfg.number[..], cfg.dominator[..]) <==>
            SameDominators(BlockGraph(Lifting(program, raw), starts), CutGraph(Lifting(program, raw), starts))
    ensures SameExits(Lifting(program, raw), starts) ==>
              ChainsAreAsmDominance(program, raw, starts, cfg.number[..], cfg.dominator[..])
  {
    var ir := FrontEnd(text, raw, program);
    LiftedProgramOk(program, raw);
    cfg, starts, calls := Analyze(ir);
    ChainsSpeakAboutSource(program, raw, starts, cfg.number[..], cfg.dominator[..]);
    if SameExits(Lifting(program, raw), starts) {
      SameExitsSuffices(Lifting(program, raw), starts);
    }
  }
}
