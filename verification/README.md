# Verified model of the decompiler's analysis pipeline

CCG lifts WeeperVM assembly to an intermediate representation, builds a control-flow graph from it,
and computes dominators and dominance frontiers on the graph. This project models the pipeline from
the text of a program to the frontier arrays, function by function, and proves what each stage is
for. `dafny verify dfyconfig.toml` checks all of it.

## Main results

* **Dominators** (`DominatorTree.dfy`, `DomFrontier.dfy`). The iterative algorithm of Cooper, Harvey
  and Kennedy, run on a mutable pointer tree, ends with the immediate dominators in the path sense.
  After every single pointer assignment the chain of every processed node still holds all its true
  dominators, although the assignment rewrites the chains of all tree descendants at once. The loop
  ends after at most k + 2 passes when no header path without repeated nodes has more than k
  retreating edges (2 passes on acyclic graphs), and after at most n + 1 passes on every graph whose
  nodes are reachable, irreducible graphs included. The node list of the search is filled if and
  only if they are.
* **Dominance frontiers** (`FrontierSpec.dfy`, `Frontier.dfy`). For every node but the header the
  runner loops compute the definition of Cytron et al. The arrays are the textbook frontiers of all
  nodes if and only if the header has no predecessor.
* **Graph construction** (`Leaders.dfy` to `BuildGraph.dfy`). The recursion visits exactly the
  reachable blocks, keeps successor and predecessor lists inverse as multisets, records a spanning
  tree of edges that always fits, and these edges are, in order, the recursive calls of the later
  search that numbers the nodes.
* **Control flow** (`Simulation.dfy`). Runs of the program that end at a block end are exactly the
  concatenated blocks of walks in the graph, if and only if no reachable block has an unconditional
  jump before its end.
* **Instruction dominance** (`Dominance.dfy`). For every program, dominance in terms of runs is block
  dominance in the graph whose blocks are cut at their first unconditional jump. Hence dominance in
  the graph of the construction is instruction dominance if and only if both graphs have the same
  dominators; it suffices that reachable blocks have the same exits in both.
* **Front end** (`Lexer.dfy`, `Spellings.dfy`, `Layout.dfy`, `Parser.dfy`, `Grammar.dfy`,
  `Rendering.dfy`, `RoundTrip.dfy`, `Lifter.dfy`). The lexer knows exactly the given spellings and
  reads exactly the texts laid out as pieces with separators, the parser accepts exactly the token
  grammar, with operands nested to any depth; rendering, lexing and parsing returns any parseable
  program, and fails in a known way if newlines trail. For programs whose jump targets lie inside
  and that do not end with a conditional jump, lifting keeps the steps if and only if there is no
  call, or the only call is the last instruction and no step leads to it.
* **Data** (`Meaning.dfy`). With a meaning of its own for each of the two languages, on registers,
  memory and flags: a lifted move has the effect of the source move from every state if and only if
  its operands are direct (or it does nothing), a lifted operation gives the same result if and only
  if both operands are direct. Programs of such moves and of jumps to immediate addresses have the
  same histories before and after lifting. Moves from memory to memory, and to the flags from anything else,
  do not keep their effect.
* **End to end** (`Pipeline.dfy`). From the text of a program to dominator chains that speak about
  runs of the assembly program, again with the exact condition.
* **Counterexamples** (`Examples.dfy`). Programs that the construction accepts and on which the
  results fail without their hypotheses: a header with a back edge, dead code behind a jump, a block
  that is skipped, an unreachable block; and one that overflows the leader buffer.

## How the model is built

Specifications are on values: graphs as sequences of successor lists (`Graphs.dfy`), paths, path
dominance, a functional depth-first traversal (`DepthFirst.dfy`) that both traversals of the program
refine, and the effect of the recursive graph construction as a function on states
(`BuildState.dfy`). The program's own functions are methods that update a graph object, a token
list or an instruction buffer in place, and each is proved against these specifications.

* A pointer to a node is the node's index, NULL is -1, and the fields of the nodes are parallel
  arrays of one graph object. All node pointers of the program point into one array, so nothing is
  lost. A growing array with its count and its fill index is a `NodeList`.
* New slots and uninitialised variables hold unknown values until they are written.
* An exit with an error message is a `Failure`, a rejected text or, where it is proved not to be
  taken, an `assert false`.
* Preconditions are what the code assumes silently: at least two leaders (the length of the first
  block is read from the second one), a leader buffer with one slot per instruction that is large
  enough, jump targets inside the program, no conditional jump at the end, and all blocks reachable
  for the dominator pass.
* Lemmas carry `{:induction false}` where their own recursion is the proof, or where automatic
  induction would only distract the verifier.

Where code and documentation differ the code is followed: the comment in front of
`reverse_post_order` calls the list a topological sort, which holds for acyclic graphs only
(`PostOrder.AcyclicIsTopological`). The field comments of `Store` (include/backend/IR.h:77-81) suggest
source and pointer the other way round than the lifter fills them.

## Model

| member | source | states |
|---|---|---|
| `DomFrontier.DFS` | source/backend/passes/domfrontier.c:9-34 | Depth-first search from a node: visits exactly what the reference traversal `Explore` visits, appends the finished nodes in its order and numbers each with its position; all other nodes keep their numbers and all other slots their content. Its recursive calls, as pairs of caller and callee, are the edges of the reference tree. |
| `DomFrontier.VisitSuccessor` | source/backend/passes/domfrontier.c:14-32 | The body of the loop: skips a visited successor, else searches from it and then numbers and appends it. |
| `DomFrontier.NumberNodes` | source/backend/passes/domfrontier.c:41-49 | On any graph: postorder numbers, the header last; exactly the first slots of the list, one for each finished node in order, and the last one are written; unreachable nodes keep their numbers. |
| `PostOrder.ListFilledIff` | source/backend/passes/domfrontier.c:41-60 | The list is filled if and only if the header reaches all nodes. |
| `Examples.UnreachedBlock` | source/backend/graph.c:281-295 | A program that the construction accepts although a block is unreachable, so that the list is not filled. |
| `DomFrontier.ReversePostOrder` | source/backend/passes/domfrontier.c:39-64 | On any graph: the result starts with the header and ends with the finished nodes in reverse order, and all nodes are unvisited again. |
| `DomFrontier.FinishedByNumber` | source/backend/passes/domfrontier.c:57-61 | If all nodes are reachable, the result lists all nodes by decreasing postorder number. |
| `PostOrder.PostOrderIsNumbering` | source/backend/passes/domfrontier.c:9-64 | The numbers are a bijection onto 0..n-1 with the header last, and every other node has a predecessor with a larger number (its depth-first parent). |
| `PostOrder.RetreatingEdgeToAncestor` | source/backend/passes/domfrontier.c:9-34 | Every edge that does not lead to a smaller number leads to an ancestor-or-self in the depth-first tree. |
| `PostOrder.AcyclicIsTopological` | source/backend/passes/domfrontier.c:36-64 | On an acyclic graph the reverse postorder is a topological order. |
| `DepthFirst.ExploreAllReachable` | source/backend/passes/domfrontier.c:9-34 | The reference traversal from the header sees exactly the reachable nodes. |
| `DepthFirst.TreeSize` | source/backend/graph.c:165-180 | The traversal records one edge less than there are nodes it sees, hence at most n-1. |
| `DepthFirst.ExploreClassifies` | source/backend/passes/domfrontier.c:9-34 | When a node is finished, each of its edges leads to a node finished before it, to an ancestor-or-self, or to a node that was seen before the traversal started. |
| `Search.ProgressReturn` | source/backend/passes/domfrontier.c:12-17 | Loop step of the search: after a recursive call what was done plus what remains is still the reference traversal. |
| `DomFrontier.Intersect` | source/backend/passes/domfrontier.c:66-84 | Terminates and returns the lowest common ancestor in the current partial tree: its chain is the intersection of the two chains. |
| `DominatorTree.FingerUp` | source/backend/passes/domfrontier.c:73-80 | Moving the finger with the smaller number up keeps the common ancestors and makes its number larger. |
| `DomFrontier.ProcessedPredecessor` | source/backend/passes/domfrontier.c:106-118 | When the loop reaches a node, one of its predecessors is processed already. |
| `DomFrontier.FirstProcessed` | source/backend/passes/domfrontier.c:109-118 | `new_idom` is always assigned: the loop finds the first processed predecessor, and there is one. |
| `DomFrontier.NewIdom` | source/backend/passes/domfrontier.c:109-127 | The new pointer is the lowest common ancestor of all processed predecessors. |
| `DominatorTree.CandidateAbove` | source/backend/passes/domfrontier.c:109-127 | The new pointer is numbered above the node, even if the first processed predecessor is the source of a back edge. |
| `DominatorTree.CandidateKeepsDominators` | source/backend/passes/domfrontier.c:109-135 | Every strict dominator of the node dominates the new pointer. |
| `DominatorTree.UpdateKeepsDominators` | source/backend/passes/domfrontier.c:129-135 | After each single assignment, the chain of every processed node (the tree descendants of the updated node included) still holds all its dominators, and all pointers stay sound. |
| `DominatorTree.ChainHoldsDominators` | source/backend/passes/domfrontier.c:101-142 | In every state of the loops the chain of a processed node holds all its dominators. |
| `DomFrontier.UpdateDominator` | source/backend/passes/domfrontier.c:129-134 | Reports a change exactly if the pointer differed; sets pointer and flag, which stay in step. |
| `DominatorTree.UpdateShallow` | source/backend/passes/domfrontier.c:101-142 | In pass k+1 a new pointer lies on all header paths to its node with at most k retreating edges. |
| `DominatorTree.PassStep` | source/backend/passes/domfrontier.c:106-135 | One step of a pass keeps the pass invariant: pointers done in this pass are good for k retreating edges, the others for k-1, and later updates preserve this. |
| `DominatorTree.PassStepSettled` | source/backend/passes/domfrontier.c:101-142 | Once paths with k retreating edges settle dominance and k+1 passes are over, no pointer changes any more. |
| `DominatorTree.SettlesAtSize` | source/backend/passes/domfrontier.c:101-142 | On every graph, irreducible ones included, paths with n-1 retreating edges settle dominance. |
| `DominatorTree.SettlesSimplePaths` | source/backend/passes/domfrontier.c:101-142 | The classical measure: if no header path without repeated nodes has more than k retreating edges, paths with k retreating edges settle dominance. |
| `DominatorTree.SettlesTopological` | source/backend/passes/domfrontier.c:101-142 | On a topologically numbered graph paths without retreating edges do. |
| `DominatorTree.FixedIsExact` | source/backend/passes/domfrontier.c:101-142 | When a pass changes nothing, the chain of every node is the set of its dominators and its pointer its immediate dominator. |
| `DomFrontier.ProcessNode` | source/backend/passes/domfrontier.c:106-135 | The body of the inner loop keeps the invariants of the pass and of the change flag. |
| `DomFrontier.OnePass` | source/backend/passes/domfrontier.c:104-135 | A pass over all nodes but the header; without a change all pointers are fixed. |
| `DomFrontier.Iterate` | source/backend/passes/domfrontier.c:101-142 | Terminates with exact dominators after at most k+2 passes if paths with k retreating edges settle dominance, and never after more than n+1. |
| `DomFrontier.ComputeIdom` | source/backend/passes/domfrontier.c:92-145 | For every node but the header the final pointer is the immediate dominator in the path sense, the final chains are the dominator sets, the numbers are postorder numbers. At most k + 2 passes if no header path without repeated nodes has more than k retreating edges, hence 2 on acyclic graphs, and never more than n + 1. |
| `Graphs.ImmediateDominatorUnique` | source/backend/passes/domfrontier.c:89 | A node has at most one immediate dominator. |
| `Graphs.StrictDominatorOfPredecessor` | source/backend/passes/domfrontier.c:89 | A strict dominator of a node dominates each of its reachable predecessors. |
| `Graphs.Shortcut` | source/backend/passes/domfrontier.c:101-142 | Every path can be shortened to one without repeated nodes on a subset of its nodes. |
| `Frontier.SetContains` | source/backend/passes/domfrontier.c:147-158 | True exactly if the node is in the array. |
| `Frontier.AddToSet` | source/backend/passes/domfrontier.c:160-177 | Adds the pair to the frontier sets; every array stays free of duplicates and its two counters equal its length. |
| `Frontier.Run` | source/backend/passes/domfrontier.c:190-197 | The runner terminates at the pointer of the join node and adds it to the set of every node passed: the chain of the predecessor without the chain of the pointer. |
| `FrontierSpec.RunnerEnds` | source/backend/passes/domfrontier.c:191 | The final pointer of the join node is on the chain of each of its predecessors. |
| `Frontier.VisitJoin` | source/backend/passes/domfrontier.c:188-198 | The runners from all predecessors of a join node, together. |
| `Frontier.CollectFrontiers` | source/backend/passes/domfrontier.c:183-200 | The sets collected for all nodes, without duplicates. |
| `FrontierSpec.CollectedIsFrontier` | source/backend/passes/domfrontier.c:183-200 | For every node but the header the collected sets are the frontiers of Cytron et al.; skipping nodes with fewer than two predecessor entries loses nothing. |
| `FrontierSpec.SinglePredecessor` | source/backend/passes/domfrontier.c:186 | With fewer than two predecessor entries, whatever dominates a predecessor strictly dominates the node. |
| `FrontierSpec.CollectedAtHeader` | source/backend/passes/domfrontier.c:186-191 | What is collected for the header: the textbook frontier without the header itself, and nothing at all if the header has a single predecessor entry. |
| `Examples.HeaderLoopMissed` | source/backend/passes/domfrontier.c:186-191 | An accepted program, all of whose blocks are reachable, where this differs from the definition: the header is in its own textbook frontier but in none of the arrays that the pass delivers for itself. |
| `Frontier.FrontiersExactIff` | source/backend/passes/domfrontier.c:179-200 | The arrays are the textbook frontiers of all nodes if and only if the header has no predecessor. |
| `Frontier.ComputeDominanceFrontier` | source/backend/passes/domfrontier.c:179-213 | The whole pass: postorder numbers, exact dominators, at most n+1 passes, and the frontier arrays described above. |
| `Pipeline.CfgToSsa` | source/backend/SSA.c:7-10 | The pass on a graph delivered by the construction, whose preconditions it meets; also returns the calls of its search. |
| `Leaders.FillBuffer` | source/backend/graph.c:21-44 | Writes 0, the jump targets and the positions after conditional jumps to the buffer, in program order, without overflow if it suffices. |
| `Leaders.EntriesAre` | source/backend/graph.c:28-44 | The entries are exactly the leaders. |
| `Leaders.QSort` | source/backend/graph.c:46 | The first n entries are sorted, the result is a permutation of them, and the rest of the buffer is untouched. |
| `Leaders.Deduplicate` | source/backend/graph.c:49-55 | In place: the prefix becomes a strictly increasing list of the same elements. |
| `Leaders.CountEdges` | source/backend/graph.c:58-69 | One less than there are blocks, and one more for each block behind an unconditional jump. |
| `Leaders.BufferSufficesIff` | source/backend/graph.c:21-44 | The buffer of one slot per instruction suffices if and only if 1 + jumps + 2 * conditional jumps is at most the number of instructions. |
| `Examples.BufferTooSmall` | source/backend/graph.c:21-44 | A program with two leaders for which it does not. |
| `Leaders.FindLeaders` | source/backend/graph.c:21-56 | Filling, sorting and compacting: a strictly increasing list that starts with 0 and holds exactly the leaders. |
| `Leaders.GetInfoGraph` | source/backend/graph.c:16-70 | The list of the leaders, and the edge bound: the number of leaders less one, plus the number of leaders other than the first that stand behind an unconditional jump. |
| `BuildGraph.InitializeGraph` | source/backend/graph.c:72-127 | An empty graph whose blocks reach from each leader to the next one. |
| `BuildGraph.FindNode` | source/backend/graph.c:134-145 | The node that starts at the offset, or NULL if there is none. |
| `BuildGraph.UpdateNeighbourNodes` | source/backend/graph.c:147-163 | Fills the pending successor slot and appends to the predecessor array of the target; all other lists stay as they are. |
| `BuildGraph.CreateEdge` | source/backend/graph.c:165-180 | Appends an edge; the exit for too many edges is not taken if there is room. |
| `BuildGraph.AddBranch` | source/backend/graph.c:219-227 | Links one successor, explores from it, and records an edge if it was new: the lines that occur three times in the function (also 233-244 and 252-260). |
| `BuildGraph.FollowBranches` | source/backend/graph.c:212-246 | Both branches of a conditional jump, the true branch first. |
| `BuildGraph.FollowExits` | source/backend/graph.c:211-261 | The three ways in which a block can end. |
| `BuildGraph.Generate` | source/backend/graph.c:187-264 | NULL and no change if the block was visited; else the effect of exploring from it. Terminates. |
| `BuildState.LinkKeepsLists` | source/backend/graph.c:147-163 | Linking keeps the successor and predecessor lists inverse to each other as multisets, also when both branches coincide. |
| `BuildState.BuildExplores` | source/backend/graph.c:187-264 | The recursion visits the blocks and records the edges of the reference traversal, gives each new block its full successor list in order, keeps lists inverse, and sets the header. |
| `BuildState.BuildAll` | source/backend/graph.c:266-270 | From an empty graph exactly the reachable blocks are linked, `successor_idx == nb_successors` and `predecessor_idx == nb_predecessors`. |
| `BuildState.EdgesFit` | source/backend/graph.c:58-69 | The recorded edges are fewer than the blocks and at most the edge bound, so the exit for too many edges is unreachable. |
| `BuildGraph.GenerateFromStart` | source/backend/graph.c:270 | The exploration of the whole program: linked graph, recorded spanning tree. |
| `BuildGraph.CreateGraph` | source/backend/graph.c:266-279 | The same, with all nodes unvisited again. |
| `BuildGraph.IrToCfg` | source/backend/graph.c:281-295 | From a program to a linked graph that meets the preconditions of the dominator pass. |
| `Pipeline.SearchCallsAgree` | source/backend/graph.c:219-260 | The k-th call of the search is a graph edge that leads to the node numbered k, from one with a larger number; there is one for each node but the header. `Pipeline.Analyze` shows that the recorded edges are these calls. |
| `Blocks.ExitsAreLeaders` | source/backend/graph.c:28-44 | Jump targets and positions after conditional jumps are block starts. |
| `Blocks.BlockLeadsTo` | source/backend/graph.c:211-261 | The successors of a block are the blocks at the positions to which its last instruction can go. |
| `Simulation.BlocksTile` | source/backend/graph.c:104-127 | Every position of the program lies in exactly one block. |
| `Simulation.CondJmpEndsBlock` | source/backend/graph.c:38-42 | A conditional jump is the last instruction of its block. |
| `Simulation.StepInside` | source/backend/graph.c:104-127 | If no reachable block has an unconditional jump before its end: inside a reachable block control falls through. |
| `Simulation.StepAcross` | source/backend/graph.c:211-261 | At the end of a block control goes exactly to the starts of its successors. |
| `Simulation.WalkIsRun` | source/backend/graph.c:187-264 | Under the same hypothesis: along every walk from the header the blocks form a run of the program. |
| `Simulation.RunIsWalk` | source/backend/graph.c:187-264 | Under the same hypothesis: every run from offset 0 follows a walk from the header. |
| `Simulation.JumpsEndBlocksSuffices` | source/backend/graph.c:34-37 | It suffices that the instruction after each non-final jump is a leader. |
| `Simulation.InteriorJumpBreaks` | source/backend/graph.c:34-37 | A reachable block with a jump before its end (dead code behind it) breaks the correspondence. |
| `Examples.DeadCodeBreaks` | source/backend/graph.c:34-37 | An accepted program with such a block. |
| `Simulation.ControlFlowPreservedIff` | source/backend/graph.c:16-69 | The runs from offset 0 that end at a block end are exactly the concatenated blocks of the walks from the header, if and only if no reachable block has an unconditional jump before its end. |
| `Dominance.StepLeaving` | source/backend/graph.c:34-37 | Where control leaves a block, at its first unconditional jump or at its end, it goes exactly to the starts of the successors in the cut graph, which has these exits. |
| `Dominance.RunTracksWalk` | source/backend/graph.c:281-295 | Every run from offset 0 follows a walk in the cut graph that passes the same blocks; no hypothesis. |
| `Dominance.WalkTracksRun` | source/backend/graph.c:281-295 | Every walk in the cut graph is followed by such a run. |
| `Dominance.InstructionDominatesIff` | source/backend/graph.c:281-295 | For every program, an instruction that starts a block dominates another one, in terms of runs, if and only if its block dominates in the cut graph. |
| `Dominance.DominanceAgreesIff` | source/backend/graph.c:281-295 | Block dominance in the graph of the construction is instruction dominance, for all pairs of blocks, if and only if that graph and the cut graph have the same dominators. |
| `Dominance.SameExitsSuffices` | source/backend/graph.c:34-37 | It suffices that every reachable block has the same successors at its end and where control leaves it: no dead code, or a jump to where the block falls anyway. |
| `Dominance.NoInteriorJumpSuffices` | source/backend/graph.c:34-37 | That holds if no reachable block has an unconditional jump before its end. |
| `Dominance.BlockDominanceIff` | source/backend/graph.c:281-295 | With the same exits, block dominance is instruction dominance. |
| `Examples.DeadCodeHarmless` | source/backend/graph.c:34-37 | The program with dead code above has the same exits, so its dominators are right although its control flow is not preserved. |
| `Examples.SkippedBlockDominates` | source/backend/graph.c:34-37 | An accepted program, all of whose blocks are reachable, where dead code changes the dominators: block 1 dominates block 2 but a run to block 2 never passes the start of block 1. |
| `Pipeline.ChainIsInstructionDominance` | source/backend/passes/domfrontier.c:92-145 | With the same exits: block A is on the final chain of block B if and only if every run from offset 0 to the first instruction of B passes the first instruction of A. |
| `Pipeline.ChainsAreInstructionDominanceIff` | source/backend/passes/domfrontier.c:92-145 | Without hypothesis: this holds for all blocks if and only if the graph and the cut graph have the same dominators. |
| `Pipeline.Analyze` | source/ccg.c:153-156 | Construction and dominator pass on a program without unreachable blocks (the call of the second is commented out at present): exact dominators and frontiers, and the recorded edges are, in order, the calls of the numbering search, each from the depth-first parent to the node with the number of the edge. |
| `Lexer.AddToken` | source/frontend/arch/weeperVM/lexer_weeperVM.c:69-94 | Appends the token; the buffer doubles exactly when it is full and keeps its tokens; as long as it did not grow, the slots behind are zero. |
| `Lexer.ScanNumber` | source/frontend/arch/weeperVM/lexer_weeperVM.c:240-248 | Takes all digits that follow and their decimal value; rejects exactly the numbers that an int cannot hold. |
| `Lexer.ScanWord` | source/frontend/arch/weeperVM/lexer_weeperVM.c:97-215 | Takes the longest word and its keyword, and rejects the text if it is none. |
| `Spellings.KeywordIff` | source/frontend/arch/weeperVM/lexer_weeperVM.c:97-215 | A word is the keyword of a kind if and only if the kind has a keyword and it is spelled like the word: 23 spellings, no other word. |
| `Spellings.WordScannedIff` | source/frontend/arch/weeperVM/lexer_weeperVM.c:346-354 | The longest word gives the keyword that is spelled like it, and is rejected if and only if there is none. |
| `Spellings.SymbolIff` | source/frontend/arch/weeperVM/lexer_weeperVM.c:312-336 | A character is a symbol if and only if it spells one of the five symbol kinds. |
| `Spellings.CharacterClasses` | source/frontend/arch/weeperVM/lexer_weeperVM.c:33-39 | Digits, letters and word characters are the expected ones and no others. |
| `Spellings.DecimalDigit` | source/frontend/arch/weeperVM/lexer_weeperVM.c:240-248 | A single digit counts its place in the row from 0 to 9. |
| `Spellings.DecimalJoins` | source/frontend/arch/weeperVM/lexer_weeperVM.c:240-248 | Digits written behind a number multiply it by the power of ten and are added, leading zeros included. |
| `Lexer.ScanOne` | source/frontend/arch/weeperVM/lexer_weeperVM.c:303-366 | One round of the scanning loop: moves on by at least one character and adds the token found, if any. |
| `Lexer.Lex` | source/frontend/arch/weeperVM/lexer_weeperVM.c:290-381 | The tokens of the whole text in order; the instruction count is one more than the newlines; fails exactly if the text is rejected; up to 256 tokens the slots behind are zero. |
| `Layout.LexIff` | source/frontend/arch/weeperVM/lexer_weeperVM.c:290-381 | A text gives a list of tokens and a number of newlines if and only if it is laid out as them: pieces, one for each token, that what stands behind does not continue, each the spelling of a symbol or keyword or a number below 2^31, with any blanks, tabs, newlines and unknown characters between them, up to a NUL or the end. All other texts are rejected. |
| `Parser.ExpectToken` | source/frontend/arch/weeperVM/parser_weeperVM.c:124-132 | Takes a token of the given kind or fails. |
| `Parser.ParseOperand` | source/frontend/arch/weeperVM/parser_weeperVM.c:267-317 | Operands of any nesting depth; result, cursor and error are those of the grammar function `OperandAt`. |
| `Parser.ParseBracketed` | source/frontend/arch/weeperVM/parser_weeperVM.c:284-303 | The bracketed index, for registers and memory. |
| `Parser.ParseOp` | source/frontend/arch/weeperVM/parser_weeperVM.c:338-352 | An operation: two operands with a comma between them. |
| `Parser.ParseJmp` | source/frontend/arch/weeperVM/parser_weeperVM.c:354-377 | A jump; for `jif` the operand written second is stored first. |
| `Parser.ParseCall` | source/frontend/arch/weeperVM/parser_weeperVM.c:379-413 | A call of one of the two known functions. |
| `Parser.ParseInstruction` | source/frontend/arch/weeperVM/parser_weeperVM.c:205-265 | Dispatch on the mnemonic; `mul` is not in the tables and fails. |
| `Parser.ParseAsm` | source/frontend/arch/weeperVM/parser_weeperVM.c:134-176 | As many instructions as were counted, numbered from 0. |
| `Grammar.OperandAtIff` | source/frontend/arch/weeperVM/parser_weeperVM.c:267-317 | The parser accepts an operand, of any nesting depth, if and only if the tokens spell it; it stops behind them. |
| `Grammar.InstructionAtIff` | source/frontend/arch/weeperVM/parser_weeperVM.c:205-265 | The same for instructions, with the number handed in. |
| `Grammar.ProgramAtIff` | source/frontend/arch/weeperVM/parser_weeperVM.c:157-176 | The same for programs: exactly as many instructions as were counted, numbered from 0. |
| `Grammar.ParserFailsBehind` | source/frontend/arch/weeperVM/parser_weeperVM.c:157-176 | If more instructions are counted than the tokens spell, the parser fails where the next one fails. |
| `Rendering.ProgramTokensRead` | source/frontend/arch/weeperVM/parser_weeperVM.c:157-176 | The tokens of a program spell it, whatever stands behind them in the buffer. |
| `Rendering.DecimalReads` | source/frontend/arch/weeperVM/lexer_weeperVM.c:240-248 | Reading the decimal digits of a number gives the number. |
| `RoundTrip.TheLexerLexesPieces` | source/frontend/arch/weeperVM/lexer_weeperVM.c:290-381 | In front of anything that does not continue them, keywords, numbers and symbols give their token; blanks are skipped and newlines counted. |
| `RoundTrip.GivesOperand` | source/frontend/arch/weeperVM/lexer_weeperVM.c:290-381 | For any lexer that does so, the text of an operand gives its tokens. |
| `RoundTrip.LexProgram` | source/frontend/arch/weeperVM/lexer_weeperVM.c:290-381 | The text of a program, with k newlines behind it, gives its tokens and |program| - 1 + k newlines. |
| `RoundTrip.TextRoundTrip` | source/frontend/arch/weeperVM/parser_weeperVM.c:134-176 | Rendering a program, lexing and parsing it returns the program and its length, whatever stands in the token buffer behind the tokens. |
| `RoundTrip.TrailingNewlines` | source/frontend/arch/weeperVM/lexer_weeperVM.c:257-266 | With k newlines behind the text the program comes back if and only if k is 0; if k is positive and two zero slots follow the tokens, parsing fails with a wrong operand on the first missing line. |
| `Pipeline.ReadText` | source/ccg.c:145-146 | Lexer and parser on such a text: the program for k = 0, never the program otherwise, and the wrong operand if the tokens leave two of the 256 initial slots. |
| `Lifter.AddAtomicOperation` | source/frontend/arch/weeperVM/lifter_weeperVM.c:234-253 | Appends the instruction with its position as offset; the buffer doubles exactly when it is full and keeps its content. |
| `Lifter.LiftMov` | source/frontend/arch/weeperVM/lifter_weeperVM.c:196-232 | A store if the destination is memory, else a load if the source is, else a copy; `MoveKeptIff` says what it does. |
| `Lifter.LiftOperation` | source/frontend/arch/weeperVM/lifter_weeperVM.c:182-194 | Comparisons and the two-operand operations (also lines 307-363); `OperationMeaning` says what they compute. |
| `Lifter.LiftJmp` | source/frontend/arch/weeperVM/lifter_weeperVM.c:365-398 | The jump address is the first stored operand. |
| `Lifter.LiftInstruction` | source/frontend/arch/weeperVM/lifter_weeperVM.c:137-180 | Appends the lifting of the instruction, nothing for a call; then sets the offset of the next free slot, if there is one. |
| `Lifter.Lift` | source/frontend/arch/weeperVM/lifter_weeperVM.c:49-108 | The liftings of all instructions in order; the buffer of one slot per instruction never grows. |
| `Meaning.OperandMeaningIff` | source/frontend/arch/weeperVM/lifter_weeperVM.c:255-294 | A lifted operand names the value of the source operand, in every state and whatever is read for a nested index, if and only if it is an immediate or a register with an immediate index. |
| `Meaning.OperationMeaning` | source/frontend/arch/weeperVM/lifter_weeperVM.c:8-47 | The lifted operation computes what the source operation computes, for all operand values and every arithmetic (used at 189 and 316). |
| `Meaning.OperationKeptIff` | source/frontend/arch/weeperVM/lifter_weeperVM.c:307-363 | Applied to what its operands name it gives the result of the source operation, in every state and with every arithmetic, if and only if both operands are direct (comparisons: 182-194). |
| `Meaning.MoveKeptIff` | source/frontend/arch/weeperVM/lifter_weeperVM.c:196-232 | A copy, load or store leaves the registers, memory and flags that the source move leaves, from every state, if and only if the operands it reads or writes are direct (at most one of them in memory), or the move is one that does nothing in either form. |
| `Meaning.LiftingKeepsData` | source/frontend/arch/weeperVM/lifter_weeperVM.c:49-108 | For programs of such moves and of jumps to immediate addresses, source and result go from the same configurations (instruction pointer and state) to the same configurations. |
| `Meaning.LiftingKeepsHistories` | source/frontend/arch/weeperVM/lifter_weeperVM.c:49-108 | And hence have the same histories of registers, memory and flags. |
| `Meaning.LiftedAnnotations` | source/frontend/arch/weeperVM/lifter_weeperVM.c:288-291 | Operands name their own instruction slot as definition and have version 0; those of a copy are bytes and all others words, whatever the width of the source move. |
| `Lifter.TrailingStoreInsideIff` | source/frontend/arch/weeperVM/lifter_weeperVM.c:179 | After n instructions the next free slot, whose offset is set, lies in the buffer unless n is the last instruction of a program without calls: then the source writes behind its buffer. |
| `Lifter.LiftedOffsets` | source/frontend/arch/weeperVM/lifter_weeperVM.c:251-252 | Instruction i of the result carries offset i. |
| `Lifter.LengthKeptIff` | source/frontend/arch/weeperVM/lifter_weeperVM.c:164-177 | The numbering survives if and only if there are no calls; then instruction i of the result is the lifting of instruction i. |
| `Lifter.SameLiftingIff` | source/frontend/arch/weeperVM/lifter_weeperVM.c:8-47 | Exactly which instructions lift to the same thing: the width of a move, the condition of a jump, the condition value of `jif` and the callee are forgotten; memory cells, flags and the immediate 0 are confused, and so are register 0 and a register indexed by the flags (also lines 196-294). For operands whose address is not read from a pointer. |
| `Lifter.CallShiftsNumbering` | source/frontend/arch/weeperVM/lifter_weeperVM.c:164-177 | A concrete program with a call whose jump misses its target after lifting. |
| `Lifter.LiftingKeepsControlFlow` | source/frontend/arch/weeperVM/lifter_weeperVM.c:365-398 | Without calls and with immediate addresses, source program and result take the same steps. |
| `Lifter.ControlFlowKeptIff` | source/frontend/arch/weeperVM/lifter_weeperVM.c:164-177 | With jump targets inside the program and no conditional jump at its end, source program and result take the same steps if and only if there is no call, or the only call is the last instruction and no step leads to it. |
| `Lifter.LiftingKeepsRuns` | source/frontend/arch/weeperVM/lifter_weeperVM.c:365-398 | And hence have the same runs. |
| `Pipeline.FrontEnd` | source/ccg.c:145-147 | Lexer, parser and lifter on the text of a program give the lifting of the program. |
| `Pipeline.LiftedProgramOk` | source/frontend/arch/weeperVM/lifter_weeperVM.c:49-71 | Lifting a call-free program whose jumps stay inside gives what the graph construction assumes. |
| `Pipeline.ChainsSpeakAboutSource` | source/backend/passes/domfrontier.c:92-145 | The same for runs of the assembly program: block A is on the chain of block B exactly if every run to the start of B passes the start of A, for all blocks, if and only if the graph and the cut graph have the same dominators. |
| `Pipeline.AnalyzeText` | source/ccg.c:145-156 | All steps from the text on, with the previous row as its postcondition; its reading of the chains holds in particular if the exits are the same. |

## Left out

- Pretty printing, graph output (`printCFG.c`, `pretty_printer.c`), reading files, command-line arguments, debug output, releasing memory and allocation failure: no behaviour to prove beyond I/O.
- `cf_structuring.c`, `AST.h` and phi placement: unfinished in the source; `cfg_to_ssa` only calls the frontier pass.
- The update of edge numbers inside `DFS` (source/backend/passes/domfrontier.c:18-27): it writes to a local copy of the edge and has no effect.
- The store behind the buffer that source/frontend/arch/weeperVM/lifter_weeperVM.c:179 performs after the last instruction of a program without calls (`TrailingStoreInsideIff` says exactly when): it is undefined, and the model does not perform it.
- Machine width of integers: indices, offsets and counts are unbounded. Only immediates are bounded, below 2^31; for larger ones the result of `atoi` is undefined, and the model rejects the text.
- Reading past the token buffer: undefined in the source, an error `NoMoreTokens` in the model.
- Leaders.QSort: the C library's sort is modelled by its result, an ascending permutation of the input, not by an algorithm.
- Lexer.ScanOne: the two regular expressions are modelled as longest matches over ASCII letters and digits, as in the C locale; line and column tracking is not modelled.
- Lexer.Lex: the address-based part of the interface (advancing the caller's text pointer) is a local position.
- Meaning.LiftingKeepsData: only for programs of moves and jumps, because the lifter stores neither the result of an operation nor the condition of a jump.
- Meaning.MoveKeptIff: registers and memory cells hold whole numbers; the width of a move is not modelled, and the lifter forgets it.
- Meaning.OperationMeaning: a comparison is taken as a test for equality, the only outcome that a lifted program represents.
- Operands of the lifted instructions refer to their instruction slot by position; the source stores an address into the buffer, which a later reallocation would invalidate.
- Register operands whose index is a register or memory operand: the lifter reads a part of a pointer as the register number. The model takes these numbers as unknown parameters (`AddressReads`), one for each instruction and operand slot.
- DomFrontier.ComputeIdom: not for graphs with unreachable nodes, where the source goes on to use the unwritten slots of its node list (`ListFilledIff` says exactly when there are any).
- The graph node that the source allocates for the header and never uses (source/backend/graph.c:81).
- Memory aliasing between a token list's, a graph's or an instruction buffer's arrays after reallocation: a grown array is a new array.
