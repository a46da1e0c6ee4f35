# R-CCS in Dafny

R-CCS interprets a concurrent process language in the style of CCS. It runs on its own cell heap with a
mark-sweep collector, evaluates agents with an abstract machine of expressions and continuations, and turns
linear temporal logic (LTL) formulas into process definitions that check a program as it runs. This project
models those three parts and proves what they are for.

**From LTL text to a checking process** (`src/ltl`). A formula arrives one lexeme at a time and is linked into
a token tree (`LtlGrammar`, `Tokens`, `OpenTokens`, `LtlParser`); the tree is normalised in place
(`Normalizer`); a tableau is expanded node by node (`Tableau` as a function, `Converter` on linked nodes);
the nodes are marked and connected (`Pipeline`) and written as nested `if` definitions (`Emitter`, `EmissionOrder`,
`NodeNames`). `LinkedList` is the doubly linked list of the original and its comparison by content. `Ltl` puts the
steps together, from the text of a formula to the text of a program, and reads that text back.

What this is for is stated in layers. `Formulas` gives the meaning of formulas on infinite words; `Soundness`,
`Completeness`, `Language`, `Descent` and `Settling` relate the automaton to it; `TableauFacts` says what nodes
list. `Generator` has the decisions of the definitions and `Conditions` their tests as text: what is written, what
the parser of agents reads, and what that means in a state; `EdgeOrder` has the order of the tests. `Processes` compares the runs of the definitions with
the automaton and the formula. `Definitions` and `Programs` have the text of the whole process and what is read
from it; `ProgramRuns`, with `Simulation`, shows that the program that is read accepts what the process accepts, and
`DecisionRuns` that the interpreter performs its decisions.
`EmittedText` has the results from formula to text, `Guards` the conditions that can be checked on a formula, and
`Samples` and `Counterexamples` the formulas that are worked out.

**The cell heap** (`src/list`). `Cells` has the cells, their free list and grey stack, reachability, and what a
pointer shows; `CellHeap` has the allocator, the registers and the collector, in place on an array of cells;
`ListOps` compares, searches and deletes in lists on the heap, and `HeapChannel` shows that the interpreter's
channel, kept as such a list, behaves as the messages of `Channels`.

**Agents as text** (`src/parse`, `src/print`). `AgentText` has agents as the parser builds them and what the
unparser writes, `AgentParser` the recursive-descent parser, both on tokens; `AgentRoundTrip` relates them, and
`AgentReader` has the procedures on the shared lookahead and the shared buffer (`AgentBuffer`), and prints an agent
and reads it back. `PlainText` writes agents with no more brackets than the grammar needs, and shows that the parser
inverts it: every precedence and grouping is fixed. `Agents`, below, has the same
agents with their names classified (channel or observation, stop, abort or defined).

**The interpreter** (`src/driver`). `Agents` has agent expressions and continuations with a hole, `Machine` one
step of `eval`, `Channels` and `ChannelQueue` the pending messages as a list and as a linked queue,
`Frame` the refinement of a reduction semantics, `Runs` the properties of all runs, and `Interpreter` the
evaluation over the queue in place. `Values` has the laws of operators, environments and argument lists,
`Communication` what a receive and a call get, and `Progress` which component the interpreter takes, when a step
fails, and that a process that can go on does.

Where the code does not do what it is for, the model follows the code, and a theorem says exactly when it
does:

* One accept set is used for all untils (`src/ltl/ltl-converter.c:171-202`). Accepted words always satisfy the
  formula; the converse holds for every formula with at most one distinct until inside its releases, whatever stands
  outside them, and for no larger bound: "infinitely often p and infinitely often q" refuses words on which p and q
  alternate (`Settling.ExactBoundOnUntils`).
* The propositions of a node are joined by a bare `&` (`src/ltl/buchi-converter.c:59-65`), and the parser of agents
  has `&` and `|` on one level (`src/parse/parse.c:413-463`), so a later `p | q` takes over what stands before it. The
  test is the conjunction of the propositions if and only if no later disjunction holds on its right side alone
  (`Conditions.TestIsConjunctionExactly`). `[] (r /\ (p | q))` is converted to a process that accepts words without r
  (`EmittedText.EmittedIsUnsound`); without a disjunction among the propositions what is accepted satisfies the
  formula (`EmittedText.WithoutOrIsSound`).
* The tests are tried in order and the first one that passes decides. The process accepts exactly the words
  over which that one run is infinite and accepting (`Processes.ProcessAcceptsExactly`); `[] (p U q)` loses the words
  on which p and q always hold (`EmittedText.EmittedLosesAWord`). No word of the automaton is lost when every node
  with an edge into it lists a proposition and no state passes two tests (`Processes.ProcessIsAutomaton`).
* Edges into nodes without a proposition are dropped (`src/ltl/buchi-node.c:52`); for "next p" the generated process
  aborts at once (`Counterexamples.NextIsRefused`).
* A definition with two successors that need no test fails an assertion (`src/ltl/buchi-converter.c:27`), and so does
  a proposition with `->` (`src/ltl/ltl-token.c:321`). The conversion ends so exactly when some definition does
  (`Ltl.Ltl2Ccs`); it does for `<> p \/ <> q` (`EmittedText.EitherHasNoText`), and for no supported formula with
  spellings for all its propositions and no constant that is true among them (`EmittedText.ConversionEnds`).
* Node names are cut to nine characters (`src/ltl/buchi-node.c:42-43`); they are different if and only if there are at
  most 99999 nodes (`NodeNames.NamesDifferExactly`). An identifier of the formula that is a keyword of the agents
  (`include/shand.h:167-171`) is not read as a name. Both are conditions of the results about the text.
* The contradiction test only looks for the negation of the formula at hand (`src/ltl/ltl-converter.c:81-92`), and
  the test of constants compares a token code with the constant of another enumeration
  (`src/ltl/ltl-token.c:173, 182`), so brackets are never looked through. Neither affects the theorems.
* The parser takes an infix operator where an operand should begin, and leaves its left operand empty
  (`src/ltl/ltl-parser.c:134-140, 149-155`). A parsed formula has all its operands if and only if no infix operator
  stands there (`LtlGrammar.CompleteExactly`).
* The unparser writes no brackets around sums and products (`src/print/print.c:73-81`). What is printed is always
  parsed, to the agent with its sums and products regrouped to the left and its closures dropped; that is the
  agent itself if and only if its expressions nest that way already and it has no closure
  (`AgentRoundTrip.RoundTripExactly`). `9-(5-2)` comes back as `(9-5)-2` (`AgentRoundTrip.BracketsAreLost`).
* `derivatives` calls every `if` enabled (`src/driver/driver.c:804-805`). A process that is enabled comes to
  communicate, observe, test, abort or report an error after finitely many silent steps (`Progress.EnabledActs`), and
  the interpreter stops only when it never can (`Runs.StopIsDeadlock`); that a test leads to something enabled is not
  claimed.

## Model

| member | source | states |
|---|---|---|
| LtlGrammar.FeedText | src/ltl/ltl-parser.c:119-214 | each lexeme is put where the grammar allows one and nothing read before is lost or reordered; the end is accepted only when nothing is open |
| LtlGrammar.FeedClimbs | src/ltl/ltl-parser.c:114-116 | climbing ends at an open bracket or above the top, and the lexeme has there the effect it has below |
| LtlGrammar.ParseInvertsFlatten | src/ltl/ltl-parser.c:119-214 | a text is accepted with tree t if and only if t is a tree of the grammar (operands, one level of infix operators, left-associative) and the text is t flattened |
| LtlGrammar.AcceptsNothingElse | src/ltl/ltl-parser.c:192-213 | besides these texts only the empty one is accepted |
| LtlGrammar.CompleteExactly | src/ltl/ltl-parser.c:134-155 | no operand is missing in the parsed formula if and only if no infix operator begins an operand |
| OpenTokens.CompleteIsValid | src/ltl/ltl-token.h:47-62 | a parsed formula without missing operands is a well-formed token tree |
| OpenTokens.LinkOperand | src/ltl/ltl-parser.c:149-155 | linking the last operand leaves the path of open tokens and their left operands as they are |
| LtlParser.Parser.LeaveSymbol | src/ltl/ltl-parser.c:122-126 | climbing from a symbol keeps the links |
| LtlParser.Parser.LeaveOperator | src/ltl/ltl-parser.c:130-133 | climbing from a complete operator or bracket makes it the complete operand of the token above |
| LtlParser.Parser.Fill | src/ltl/ltl-parser.c:134-140 | a new token becomes the missing operand, or the lexeme is refused |
| LtlParser.Parser.InsertBelow | src/ltl/ltl-parser.c:161-168 | an infix operator takes the operand of a bracket as its left operand, in place |
| LtlParser.Parser.InsertOnTop | src/ltl/ltl-parser.c:203-206 | an infix operator takes the whole formula as its left operand |
| LtlParser.Parser.Begin | src/ltl/ltl-parser.c:193-202 | only a symbol, a unary operator or a bracket begins a formula |
| LtlParser.Parser.Parse | src/ltl/ltl-parser.c:119-214 | the linked tokens follow the grammar state lexeme by lexeme, with the parent links on the open path right; climbing terminates |
| LtlParser.ParseFormula | src/ltl/ltl.c:20-25 | the tokens that are linked for a text spell exactly the tree that the text flattens; the empty text is accepted and leaves no token |
| Normalizer.NormalizeIsBasic | src/ltl/normalizer.c:11-57 | no bracket, always or eventually is left, and formulas without them are not changed |
| Normalizer.NormalizeMeaning | src/ltl/normalizer.c:11-57 | normalisation preserves the meaning of every formula at every position of every infinite word |
| Normalizer.SupportedExactly | src/ltl/normalizer.c:60-64 | the formulas that the tableau handles after normalisation, as conditions on what was written |
| Normalizer.Rewrite | src/ltl/normalizer.c:11-57 | the token tree becomes the normalised formula in place, all parent links below the root get right, no freed token stays linked, and it terminates |
| Normalizer.RewriteShorthand | src/ltl/normalizer.c:19-31 | always becomes ff R, eventually tt U |
| Normalizer.RewriteArgument | src/ltl/normalizer.c:40-44 | the argument is replaced and linked back |
| Normalizer.RewriteOperands | src/ltl/normalizer.c:45-50 | both operands are replaced and linked back |
| Formulas.SameTokenIsEquality | src/ltl/ltl-token.c:81-116 | the token comparison is equality of formulas |
| Formulas.PropositionsMembers | src/ltl/ltl-token.c:146-155 | collects exactly the propositions of a list |
| Formulas.UntilsCollectsAll | src/ltl/ltl-token.c:157-170 | collects exactly the until subformulas |
| Formulas.ConstantMeaning | src/ltl/ltl-token.c:172-188 | what counts as true holds everywhere and what counts as false nowhere |
| Formulas.NegatedConstant | src/ltl/ltl-token.c:172-188 | a constant under negations counts as true or false by their parity |
| Formulas.OnlyNegatedConstants | src/ltl/ltl-token.c:172-188 | nothing else counts as a constant |
| Formulas.PropositionExactly | src/ltl/ltl-token.c:118-144 | a proposition is a formula without an operator on positions |
| LinkedList.List.InsertAfter | src/ltl/linked-list.c:42-75 | the new element stands behind the given one, all links and the count stay right |
| LinkedList.List.Add | src/ltl/linked-list.c:89-92 | appends, and keeps the list well formed |
| LinkedList.List.RemoveElement | src/ltl/linked-list.c:20-40 | takes out exactly that element |
| LinkedList.List.PopFirst | src/ltl/linked-list.c:109-117 | gives and takes out the first element; nothing for the empty list |
| LinkedList.List.AddAll | src/ltl/linked-list.c:102-107 | appends the other list, which is unchanged |
| LinkedList.List.RemoveMatching | src/ltl/linked-list.c:161-170 | takes out the first match, or reports that there is none |
| LinkedList.MatchAll | src/ltl/linked-list.c:140-153 | greedy matching succeeds exactly for equal contents |
| LinkedList.HaveEqualContent | src/ltl/linked-list.c:129-159 | true if and only if every value occurs equally often in both lists, for any equivalence relation and lists of any length |
| LinkedList.SameContentIsMultiset | src/ltl/linked-list.c:129-159 | for plain equality that is equality of multisets |
| Tableau.FindSame | src/ltl/ltl-converter.c:21-29 | the first completed node with the same formulas now and next, as multisets |
| Tableau.DoneIsBounded | src/ltl/ltl-converter.c:37-54 | the completed nodes have pairwise different contents over the subformulas, so there are only so many |
| Tableau.AlternativesWellFormed | src/ltl/ltl-converter.c:57-168 | one round stays within the subformulas, puts nothing twice into old, keeps next no longer than old, and makes the termination measure smaller |
| TableauFacts.NextAtMostTwice | src/ltl/ltl-converter.c:96-159 | a completed node promises no formula more than twice |
| TableauFacts.NodesListLeaves | src/ltl/ltl-converter.c:57-168 | every proposition that a node lists is one of the outermost propositions of the formula |
| TableauFacts.NodesConsistent | src/ltl/ltl-converter.c:69-95 | a completed node lists no false constant, and no proposition behind its negation |
| Tableau.Expand | src/ltl/ltl-converter.c:33-169 | the expansion terminates and only adds nodes and incoming edges to what was completed before, also across the two calls for a split |
| Soundness.AlternativesInvariant | src/ltl/ltl-converter.c:64-159 | a round keeps: every formula of old is decomposed, what predecessors ask for next and what the start asks for arrives |
| Soundness.MergeInvariant | src/ltl/ltl-converter.c:41-47 | merging the edges of a node with equal contents keeps the invariant |
| Soundness.ExpandInvariant | src/ltl/ltl-converter.c:33-169 | the tableau invariant: completed nodes are closed under decomposition, respect every edge, and have edges from completed nodes only |
| Soundness.UntilHolds | src/ltl/ltl-converter.c:96-110 | an until that is listed holds once a later node fulfils it |
| Soundness.ReleaseHolds | src/ltl/ltl-converter.c:112-127 | a release that is listed holds |
| Soundness.NowHolds | src/ltl/ltl-converter.c:33-169 | on a labelled run on which every until recurs, every formula a node lists holds at its position |
| Completeness.AlternativesAgree | src/ltl/ltl-converter.c:57-159 | when the word agrees with a node it agrees with one that replaces it; of two, the second one exactly when the right side of an until holds, the left side of a release holds, or the left side of a disjunction does not |
| Completeness.ExpandCovers | src/ltl/ltl-converter.c:33-169 | the expansion loses no word: each is followed by completed nodes for ever |
| Completeness.WitnessFulfills | src/ltl/ltl-converter.c:96-110 | on the run chosen for a word each until is fulfilled again and again |
| Language.BuildSucceeds | src/ltl/ltl-converter.c:161-167 | the fatal branch is not reached for decomposable formulas |
| Language.BuildIsTableau | src/ltl/ltl-converter.c:33-169 | what is built satisfies the tableau invariant, with no duplicate in old and pairwise different nodes |
| Language.AcceptedSatisfies | src/ltl/ltl-converter.c:171-202 | soundness: every accepted word satisfies the formula, for every formula that is built |
| Language.LanguagePerUntil | src/ltl/ltl-converter.c:171-202 | with one recurrence condition for each until, the automaton accepts exactly the words that satisfy the formula |
| Language.TwoUntilsMissAWord | src/ltl/ltl-converter.c:180-199 | a formula with two untils and a word that satisfies it and is not accepted |
| Descent.ExpandDescends | src/ltl/ltl-converter.c:33-169 | what a node lists is part of a formula promised by each of its predecessors, and a promise is made only by a next, an until or a release of the node |
| Settling.OutsideSettles | src/ltl/ltl-converter.c:96-159 | on the run that keeps a word, from some position on only what stands inside a release is listed |
| Settling.LanguageOneRecurring | src/ltl/ltl-converter.c:171-202 | with at most one distinct until inside the releases the single accept set gives exactly the language of the formula |
| Settling.ExactBoundOnUntils | src/ltl/ltl-converter.c:171-202 | all formulas with at most k distinct untils inside their releases get their language if and only if k is at most one |
| Converter.FindSameNode | src/ltl/ltl-converter.c:41 | the search among the linked nodes is the search among their contents |
| Converter.SameContentsExactly | src/ltl/ltl-converter.c:21-29 | the comparison of nodes is the comparison of both lists by content under the equality of tokens |
| Converter.Round | src/ltl/ltl-converter.c:57-159 | one token is popped and the node is changed in place, with a fresh clone for the second alternative |
| Converter.Merge | src/ltl/ltl-converter.c:42-47 | the edges go to the completed node; nothing else changes |
| Converter.Complete | src/ltl/ltl-converter.c:49-52 | the node is completed and its successor in time is made; edges lead from completed nodes only |
| Converter.ExpandNode | src/ltl/ltl-converter.c:33-169 | the expansion on linked nodes, in place, computes exactly the expansion on values, and ends in the fatal error exactly when that does |
| Pipeline.CollectPropositions | src/ltl/ltl-token.c:146-155 | the loop computes the list of propositions |
| Pipeline.CollectUntils | src/ltl/ltl-token.c:157-170 | the visitor computes the list of untils |
| Pipeline.Postprocess | src/ltl/buchi-node.c:33-56 | names the nodes, collects their propositions and enters an outgoing edge for each incoming one into a node with a proposition, in order |
| Pipeline.CalcAcceptStates | src/ltl/ltl-converter.c:171-202 | a node is accepting unless some until of the formula is listed without its right operand |
| Pipeline.Ltl2Buchi | src/ltl/ltl-converter.c:256-275 | the list of completed nodes, with the initial node last, is the tableau of the formula with its marks and edges |
| Generator.OutgoingMembers | src/ltl/buchi-node.c:47-55 | outgoing edges are the incoming ones into nodes that list a proposition |
| EdgeOrder.OutgoingCount | src/ltl/buchi-node.c:47-55 | there are as many edges as incoming ones, for each pair of nodes |
| EdgeOrder.SplitKeeps | src/ltl/buchi-converter.c:22-32 | every edge becomes a test or the last alternative |
| EdgeOrder.DefinitionAscends | src/ltl/buchi-converter.c:54-73 | the tests of a definition are in the order of the nodes |
| Conditions.ReadJoined | src/parse/parse.c:413-463 | what the parser makes of the joined propositions, whatever follows: a fold to the left in which a later conjunction or disjunction comes apart |
| Conditions.EvalIsValueIn | src/driver/driver.c:1599-1626 | in an environment that binds the variables as the state does, the interpreter computes the value of the test |
| Conditions.JoinReadValue | src/ltl/buchi-converter.c:59-65 | the value of the expression that is read is the fold over the propositions in which a disjunction takes over |
| Conditions.TestHoldsExactly | src/ltl/buchi-converter.c:59-65 | the test passes if and only if all propositions hold, or a later disjunction holds on its right side and everything behind it holds |
| Conditions.TestIsConjunctionExactly | src/ltl/buchi-converter.c:59-65 | the test is the conjunction in every state if and only if such a disjunction never holds without all the others |
| Conditions.NoLaterOrIsConjunction | src/ltl/buchi-converter.c:59-65 | the test is the conjunction when no proposition after the first is a disjunction |
| Conditions.KeywordsExactly | include/shand.h:167-171 | which identifiers are keywords of the agents, and which of them are constants |
| Conditions.HasSyntaxExactly | src/ltl/ltl-token.c:292-330 | a proposition has a spelling if and only if there is no implication in it |
| Generator.ChainPicksFirst | src/ltl/buchi-converter.c:50-89 | in every state the chain picks the first node whose test, as it is read, passes, else the last alternative |
| Generator.GoesOnExactly | src/ltl/buchi-converter.c:22-89 | a definition goes on to a node if and only if that is the first one whose test passes, and shows accept exactly when that node is accepting |
| Generator.FirstFollowsEdge | src/ltl/buchi-node.c:47-55 | it goes on only along an edge of the tableau into a node with a proposition |
| Generator.AbandonsExactly | src/ltl/buchi-converter.c:38-86 | a definition abandons the run if and only if no successor is first, and shows accept then if and only if none of its successors is tested |
| Processes.ProcessRunsExactly | src/ltl/buchi-converter.c:12-93 | the process runs along a path if and only if that is the first-match path, and shows accept exactly at its accepting nodes |
| Processes.FirstMatchUnique | src/ltl/buchi-converter.c:50-89 | there is one first-match path over a word |
| Processes.ProcessAcceptsExactly | src/ltl/buchi-converter.c:12-93 | the process goes on for ever and passes accept again and again if and only if the first-match path is infinite and accepting |
| Processes.EdgesKeptExactly | src/ltl/buchi-node.c:47-55 | no edge is dropped if and only if every node with an edge into it lists a proposition |
| Processes.ProcessIsSound | src/ltl/buchi-converter.c:12-93 | when every test is the conjunction of its propositions, what the process accepts satisfies the formula as written |
| Processes.ProcessIsAutomaton | src/ltl/buchi-node.c:47-55 | when, moreover, no edge is dropped and no state passes the tests of two successors, the process accepts exactly the words of the automaton |
| Processes.ProcessIsExact | src/ltl/buchi-converter.c:12-93 | then, with at most one until inside the releases, it accepts exactly the words that satisfy the formula |
| Guards.NoOrLeafConjunctions | src/ltl/buchi-converter.c:59-65 | without a disjunction among the propositions of the formula all tests are conjunctions |
| Guards.NoTrueLeafDecided | src/ltl/buchi-converter.c:24-28 | without a constant that is true among them no definition has two successors without a test |
| Samples.AlwaysIsExact | src/ltl/buchi-converter.c:12-93 | for "always p" the process accepts exactly the words on which p always holds |
| Samples.AlwaysAbandons | src/ltl/buchi-converter.c:76-86 | in a state that violates p the definitions for "always p" abandon the run without passing accept |
| Counterexamples.LaterOrIsUnsound | src/ltl/buchi-converter.c:59-65 | a formula whose process accepts words that do not satisfy it |
| Counterexamples.FirstMatchLosesAWord | src/ltl/buchi-converter.c:50-73 | a formula with one until, all edges kept and all tests conjunctions, and words that satisfy it and are accepted by the automaton, but not by the process |
| Counterexamples.NextIsRefused | src/ltl/buchi-node.c:52-53 | for "next p" the initial definition is the accepting Abort: no word is accepted by going on, also none that satisfies the formula |
| Counterexamples.EitherIsRefused | src/ltl/buchi-converter.c:27 | for "eventually p or eventually q" the assertion fails |
| NodeNames.NamesDifferExactly | src/ltl/buchi-node.c:41-44 | the names of n nodes are pairwise different if and only if n is at most 99999 |
| NodeNames.NamesSpelled | src/ltl/buchi-node.c:42-43 | how names are spelled, with four and with five digits |
| Definitions.ReadDefinition | src/parse/parse.c:1202-1388 | the text of a definition is read as the agent of its decision, whatever follows |
| Definitions.DecideIsChoose | src/driver/driver.c:1947-1954 | the agent that is read decides in every state as the decision does |
| DecisionRuns.DecisionIsPerformed | src/driver/driver.c:1947-1954 | in an environment that binds the variables as the state does, the interpreter goes through the tests, shows accept or not, and arrives at the call of the next definition or at Abort, as decided |
| Programs.WritingFailsExactly | src/ltl/buchi-converter.c:15-93 | there is no text if and only if the definition of some node cannot be written |
| Programs.ReadProgram | src/parse/parse.c:1347-1388 | the text is read as one definition for each node, in order |
| ProgramRuns.TextIsProcess | src/ltl/buchi-converter.c:12-93 | the program that is read from the text, found by the names of its definitions, accepts exactly the words that the process accepts |
| ProgramRuns.TextAbandons | src/ltl/buchi-converter.c:38-86 | the definition that is read for a node abandons the run exactly when no successor is first, and then passes no accept when some successor is tested |
| ProgramRuns.TextAcceptsExactly | src/ltl/ltl.c:13-40 | the same from a formula |
| EmissionOrder.HeadsAndCloses | src/ltl/buchi-converter.c:52-91 | tests, last alternative and brackets, in the order of the loops, are the text of the nested decision |
| Emitter.WriteProposition | src/ltl/ltl-token.c:208-333 | appends the proposition with brackets around every operand, and fails exactly on an operator without a spelling |
| Emitter.EmitCondition | src/ltl/buchi-converter.c:59-65 | appends the joined propositions |
| Emitter.SplitSuccessors | src/ltl/buchi-converter.c:22-32 | splits the successors, and fails exactly when two need no test |
| Emitter.EmitDefinition | src/ltl/buchi-converter.c:15-93 | appends exactly the text of the definition, with its name, tests, last alternative and brackets, and fails exactly when there is none |
| Emitter.Buchi2Ccs | src/ltl/buchi-converter.c:12-93 | appends exactly the text of all definitions, the initial one last, and fails exactly when one of them does |
| EmittedText.ConversionEnds | src/ltl/ltl.c:13-40 | the conversion of a supported formula ends with a text when all its propositions have a spelling and none is a constant that is true |
| EmittedText.EmittedIsSound | src/ltl/ltl.c:13-40 | text to text: when all tests are conjunctions, what the generated text accepts, read as it stands, satisfies the formula that was written |
| EmittedText.WithoutOrIsSound | src/ltl/ltl.c:13-40 | so it is for every formula without a disjunction among its propositions |
| EmittedText.EmittedIsExact | src/ltl/ltl.c:13-40 | the text accepts exactly the words that satisfy the formula when, moreover, no edge is dropped, no state passes two tests and at most one until stands inside a release |
| EmittedText.AlwaysIsEmitted | src/ltl/ltl.c:13-40 | for "always p" the text accepts exactly the words on which p always holds |
| EmittedText.AlwaysText | src/ltl/buchi-converter.c:12-93 | the text for "always x", token by token |
| EmittedText.EmittedIsUnsound | src/ltl/buchi-converter.c:59-65 | the text for `[] (r /\ (p or q))`, with the disjunction of propositions, accepts words that do not satisfy it |
| EmittedText.EmittedLosesAWord | src/ltl/buchi-converter.c:50-73 | the text for `[] (p U q)` does not accept words that satisfy it |
| EmittedText.EitherHasNoText | src/ltl/buchi-converter.c:27 | a supported formula whose conversion ends in the failed assertion |
| Ltl.ReadFormula | src/ltl/ltl.c:20-27 | the normalised formula of the tree that the text flattens, or a syntax error exactly when the text is not accepted |
| Ltl.Generate | src/ltl/ltl.c:32-33 | the fatal error exactly when the tableau is not built, the failed assertion exactly when some definition cannot be written, and otherwise the text of the process is appended |
| Ltl.Ltl2Ccs | src/ltl/ltl.c:13-40 | from text to text: which of the four outcomes a text has, exactly, and what is appended; supported formulas never reach the fatal error |
| Ltl.ParsedReadable | src/ltl/ltl-scanner.c:53-58 | a parsed formula has no negative number, so it is readable when no identifier is a keyword |
| Ltl.Convert | src/driver/driver.c:2170-2187 | the generated text is read as the program with one definition for each node |
| Cells.FreeMember | src/list/gc.c:93-101 | the free list holds exactly the vacant cells, each white and pointing to itself |
| Cells.GreyMember | src/list/gc.c:134-166 | the stack threaded through the cells holds exactly the grey cells, all of them live |
| Cells.ShowsKept | src/list/gc.c:403-439 | a list with a reachable first cell reads the same afterwards |
| CellHeap.Memory.constructor | src/list/gc.c:81-107 | all cells are free and the heap invariant holds |
| CellHeap.Memory.GcPush | src/list/gc.c:134-166 | a white live cell turns grey and becomes the top; any other pointer changes nothing |
| CellHeap.Memory.GcInit | src/list/gc.c:178-214 | exactly the roots get grey: the stack register, the other registers and the live cells that words of the machine stack point to |
| CellHeap.Memory.MarkTop | src/list/gc.c:338-388 | one round blackens the top and greys the white cells it links to |
| CellHeap.Memory.Mark | src/list/gc.c:333-391 | afterwards exactly the cells reachable from the roots are black and no cell is grey |
| CellHeap.MarkedRoundKeeps | src/list/gc.c:338-388 | the loop keeps: black and grey cells are reachable, and links of black cells lead to black or grey ones |
| CellHeap.MarkingDone | src/list/gc.c:338-390 | with nothing grey left, black means reachable |
| CellHeap.Memory.Sweep | src/list/gc.c:403-442 | black cells turn white, white live ones go to the free list, and no grey one is met |
| CellHeap.Memory.Gc | src/list/gc.c:443-454 | a cell is freed if and only if it was live and unreachable, survivors keep element and next, all is white; the fatal error is raised exactly when no cell is free |
| CellHeap.CollectedSane | src/list/gc.c:403-439 | no survivor points to a free cell |
| CellHeap.Memory.MaintainReg | src/list/gc.c:215-251 | the new value becomes a root and no root is lost |
| CellHeap.Memory.HandedSurvive | src/list/gc.c:231-236 | cells handed out since the last collection survive the next one, whatever the machine stack holds |
| CellHeap.Memory.EnsureFree | src/list/list.c:239-242 | collects when nothing is free, and fails exactly when every cell is in use |
| CellHeap.Memory.Allocate | src/list/list.c:243-250 | takes the first free cell, which was not live, and fills it |
| CellHeap.Memory.ProtectArguments | src/list/list.c:316-318 | both arguments become roots |
| CellHeap.Memory.MakeCell | src/list/list.c:252-286 | a new cell, after a collection if needed, that takes nothing reachable |
| CellHeap.Memory.Cons | src/list/list.c:306-325 | succeeds exactly when the tail is a list and a cell is free or unreachable, without a collection when one is free; the result has the given head and tail, and whatever was reachable is unchanged |
| CellHeap.ConsShows | src/list/list.c:306-325 | the result shows the head in front of the list that the tail showed before, also when the allocation collected |
| ListOps.EqualLists | src/list/list.c:472-498 | true if and only if both pointers show the same list, with the shortcut for the same cell |
| ListOps.EqualElements | src/list/list.c:445-471 | true if and only if both elements stand for the same |
| ListOps.IsMember | src/list/list.c:499-529 | true if and only if the list has the element |
| ListOps.DeletedExactly | src/list/list.c:584-602 | deletion takes out the first occurrence and nothing else, and changes nothing when there is none |
| ListOps.WordsKeptOn | src/list/gc.c:192-201 | what the machine stack points to outlives several collections in a row |
| ListOps.Delete | src/list/list.c:584-602 | deletion by copying, where every copied cell may cause a collection: the result shows the list without the first occurrence, and every list the machine stack points to is unchanged; it succeeds, taking as many cells as are copied, when that many are free |
| HeapChannel.DeletedIsRemove | src/driver/driver.c:1671-1679 | deleting the list of a message from the list of messages is removing the message |
| HeapChannel.LookupCell | src/driver/driver.c:315-390 | finds the values of the first message of a name, as the lookup among messages does |
| HeapChannel.RemoveCell | src/driver/driver.c:1669-1682 | a receive on the channel in cells is the removal of the message, also across collections; it succeeds when as many cells are free as messages are pending |
| HeapChannel.InsertCell | src/driver/driver.c:126-157 | a send on the channel in cells puts the message in front, and fails exactly when every cell is in use |
| AgentRoundTrip.ReadValue | src/parse/parse.c:127-463 | a printed expression that needs no brackets is parsed to itself and nothing behind it is consumed |
| AgentRoundTrip.RegroupedKeeps | src/print/print.c:57-103 | every expression that can be printed has the text of an expression that needs no brackets |
| AgentRoundTrip.RegroupedSame | src/parse/parse.c:223-337 | expressions that need no brackets are not regrouped |
| AgentRoundTrip.ReadList | src/parse/parse.c:655-694 | lists are stored in reverse, printed in reverse and read in reverse again |
| AgentRoundTrip.ReadOperand | src/parse/parse.c:803-1061 | the printed text of an agent, whatever follows, is read as one agent |
| AgentRoundTrip.RoundTripExactly | src/print/print.c:294-375 | printing and parsing gives the regrouped agent, and gives the same agent if and only if it has no closure and all its expressions are well nested |
| AgentRoundTrip.BracketsAreLost | src/print/print.c:73-81 | an agent that comes back different, with another value |
| AgentRoundTrip.TextSample | src/print/print.c:294-375 | a prefix with its lists, token by token |
| AgentRoundTrip.OperatorSamples | src/print/print.c:294-375 | operators and a send, token by token |
| PlainText.PlainValueIsRead | src/parse/parse.c:127-463 | an expression written with only the brackets that its operators need is read back as it is: five levels of operators, each grouped to the left |
| PlainText.PlainIsRead | src/parse/parse.c:803-1228 | an agent written with only the brackets that the grammar needs is read back as it is: prefixes bind tighter than operators, those have one level and are grouped to the left, a conditional stands alone |
| PlainText.PlainIsParsed | src/parse/parse.c:1347-1388 | so it is in the brackets that the driver expects |
| PlainText.ChainIsRead | src/parse/parse.c:1141-1181 | agents joined by any signs are combined from the left, whatever follows |
| AgentReader.ReadBoolExp | src/parse/parse.c:452-463 | the procedures on the shared lookahead compute the parsing functions and leave the lookahead behind what they read |
| AgentReader.ReadAgentExp | src/parse/parse.c:1202-1338 | the same for agents, whose grouping is the one of PlainText.PlainIsRead |
| AgentReader.ReadProgram | src/parse/parse.c:1347-1388 | the same for the definitions of a program, to the end of the text |
| AgentReader.PrintValue | src/print/print.c:57-103 | appends the text of the expression |
| AgentReader.PrintList | src/print/print.c:104-160 | appends the bracketed list from its end |
| AgentReader.PrintAgent | src/print/print.c:294-375 | appends the text of the agent |
| AgentReader.PrintThenRead | src/print/print.c:294-375 | what is appended for an agent to an empty buffer and then read is the agent regrouped and without closures, and the same agent exactly when it is faithful |
| Machine.QuotientTruncates | src/driver/driver.c:1281-1295 | the helper rounds towards zero, and its remainder never has the sign opposite to the dividend |
| Values.DivisionExactly | src/driver/driver.c:1281-1366 | division and remainder are the only quotient towards zero and its remainder |
| Values.OperatorFailsExactly | src/driver/driver.c:1523-1560 | an operator fails only for a division or a remainder by zero |
| Values.ArithmeticLaws | src/driver/driver.c:1169-1342 | sums and products count up from zero, and differences undo sums |
| Values.ComparisonLaws | src/driver/driver.c:1391-1522 | of smaller, equal and greater exactly one holds, by the sign of the difference, and the others are their opposites |
| Values.LogicLaws | src/driver/driver.c:1241-1390 | conjunction and disjunction give 0 or 1 and exchange under negation |
| Values.EvaluatesExactly | src/driver/driver.c:1599-1626 | an expression has a value if and only if its variables are bound and it divides by zero nowhere |
| Values.EvalValsEach | src/driver/driver.c:1627-1638 | the values of a list are those of its elements, in order |
| Values.NewestValue | src/driver/driver.c:479-500 | a variable has the value of its newest binding |
| Values.BindFailsExactly | src/driver/driver.c:179-201 | binding fails exactly when the lengths differ |
| Values.BindMeaning | src/driver/driver.c:179-201 | a bound name has the value at its last position, and any other name keeps its value |
| Values.BindEach | src/driver/driver.c:179-201 | different parameters have the values at their positions |
| Agents.IsHoleExactly | src/driver/driver.c:899-939 | the test finds a hole if and only if there is one at any depth |
| Agents.ResumeTwice | src/driver/driver.c:941-998 | filling a continuation in two stages is filling it with the filled inner one |
| Agents.SwitchLaw | src/driver/driver.c:1047-1074 | filling the continuation after a send with the sibling gives the process with the sender in its place |
| Agents.EnterLaw | src/driver/driver.c:1009-1088 | entering one side of a parallel agent closes the other side over its environment and changes nothing else |
| Channels.InsertMeaning | src/driver/driver.c:136-157 | a send enters its message, in both channel orders |
| Channels.RemoveMeaning | src/driver/driver.c:1669-1682 | a receive empties its own channel and no other |
| Channels.LookupFirst | src/driver/driver.c:315-390 | what is found are the values of the first message of the channel |
| Frame.NormResume | src/driver/driver.c:941-1007 | pushing closures to the components commutes with filling the hole |
| Frame.StepFrame | src/driver/driver.c:1639-2024 | a step keeps the continuation well formed, and moves the hole or lets exactly the component at the hole fire |
| Frame.StepComponents | src/driver/driver.c:1639-2024 | all other components keep their place, expression and environment |
| Runs.RunRefines | src/driver/driver.c:1736-2024 | whatever a run of the machine shows, the process can show by reductions of single components, ending in the same process and channel |
| Runs.StepChannel | src/driver/driver.c:1669-1731 | the channel changes only by sending on a free label or receiving what is pending |
| Runs.ChannelsAreOnePlace | src/driver/driver.c:744-771 | in every run from an empty channel each label has at most one pending message, sends and receives alternate, and a receive gets the values of the send before it |
| Runs.EnabledSame | src/driver/driver.c:778-844 | whether an agent is enabled depends only on which labels have a message pending |
| Runs.StepAlike | src/driver/driver.c:136-157 | over a stack or a queue with the same messages pending the interpreter takes the same step |
| Runs.RunAlike | src/driver/driver.c:391-442 | every run over the stack is, event by event, a run over the queue |
| Runs.EnabledDeeper | src/driver/driver.c:807-829 | an answer of derivatives does not depend on how deep the recursion may go |
| Runs.BlockedFires | src/driver/driver.c:778-844 | a component that is not enabled never communicates, and stays so when it unfolds or chooses |
| Runs.StopIsDeadlock | src/driver/driver.c:1757-1779 | when the interpreter stops, other than by an abort, the process can never communicate again |
| Communication.ArgumentsReachParameters | src/driver/driver.c:1669-1731 | in every run from an empty channel, what is read under a parameter after a receive is the value its argument had for the sender, and every other name keeps its value |
| Communication.CallPassesArguments | src/driver/driver.c:1977-2024 | after a call, what is read under a parameter is the value of its argument, and every other name has the value it has for the caller |
| Progress.BranchExactly | src/driver/driver.c:1781-1893 | at a sum or a parallel agent the interpreter takes the left side when it is enabled, the right side when only that is, and gives up when neither is |
| Progress.ControlReturns | src/driver/driver.c:1639-2024 | after a receive, an observation, a call, or a component that cannot go on the interpreter starts again at the top; an enabled closure is entered in its environment; a test goes on in place |
| Progress.SendSwitches | src/driver/driver.c:1692-1731 | after a send control passes to the other side of the outermost parallel agent, and the sender waits in its place |
| Progress.FailsExactly | src/driver/driver.c:1639-2024 | a step fails exactly for a message of another length, a missing value, an undefined or ill-called definition, or an error in a component that is asked; an enabled receive finds its message |
| Progress.StopReturns | src/driver/driver.c:1736-2024 | what is returned on stopping is the whole process as it stands |
| Progress.BlockedHasNoAbort | src/driver/driver.c:778-844 | a process that is not enabled has no component that would abort |
| Progress.CallChecked | src/driver/driver.c:807-829 | a call with arguments that is answered for has as many as its definition has parameters |
| Progress.ComesToAct | src/driver/driver.c:1736-2024 | with nothing enabled on its left, an enabled component comes to act after finitely many silent steps |
| Progress.EnabledActs | src/driver/driver.c:1736-2024 | from every state a run can reach, an enabled process comes to act after finitely many silent steps |
| ChannelQueue.MessageQueue.Append | src/driver/channel.c:108-143 | the queue gets the message at its rear, front and rear pointers stay right |
| ChannelQueue.MessageQueue.First | src/driver/channel.c:218-247 | finds the first message of the label |
| ChannelQueue.MessageQueue.Dequeue | src/driver/channel.c:168-187 | takes out the front |
| ChannelQueue.MessageQueue.Delete | src/driver/channel.c:258-302 | takes out the first equal message, wherever it stands |
| Interpreter.Derivatives | src/driver/driver.c:778-844 | the recursion over the queue decides whether the agent is enabled |
| Interpreter.EvalPrefix | src/driver/driver.c:1639-1735 | a communication over the queue in place is the step of the machine |
| Interpreter.EvalStep | src/driver/driver.c:1736-2024 | one call of eval over the queue in place is one step of the machine |
| Interpreter.Eval | src/driver/driver.c:1736-2024 | consecutive calls are a run of the machine, on which every channel is a one-place buffer |

## Left out

- Ltl.Ltl2Ccs: for a text in which an operand is missing the original follows a null pointer; those texts are excluded, and `LtlGrammar.CompleteExactly` says which they are.
- Ltl.ReadFormula: the empty text is excluded from here on; it is accepted, leaves no token (`LtlParser.ParseFormula`), and the normaliser then follows a null pointer.
- Normalizer.Rewrite: the parent link of the root may still point to a token that was freed when brackets were removed around the whole formula.
- Progress.EnabledActs: a test counts as acting, as `if` counts as enabled; a process may test for ever without communicating.
- Strings as values of the interpreter, and the operators on them.
- Machine.Enabled: the recursion through definitions carries a bound on its depth, and exceeding it is the outcome of a recursion that does not return; the theorems hold for every bound.
- Interpreter.Eval: the number of calls of `eval` is bounded by an argument, as evaluation need not end.
- CellHeap.Memory.GcInit: the machine stack is an arbitrary sequence of words, each null, no pointer into the area, or an aligned pointer to a cell; the scan of `/proc`, misaligned words and the address one past the area are not modelled.
- Characters: scanners, symbol tables and output buffers; lexemes and the tokens of agents are values, and only names of nodes, identifiers and keywords are spelled.
- String literals in formulas, on which the token comparison fails an assertion.
- The width of machine integers, also of numbers in formulas; values are unbounded and division by zero is an error outcome. Negative results, which the original writes with digits at negative indices (`src/parse/parse.c:92-116`), are values like others.
- Processes.ProcessAccepts: the process decides once for every state of the word. Verification mode evaluates at most two tests of a chain before it returns (`src/driver/driver.c:1902-1928`), so that a longer chain goes on in a later state; and a variable that is not defined takes a branch of its own.
- The overlay of operand fields and literal values in a token, and `free`; freed tokens are only shown not to be linked any more.
- Interactive mode, verification mode with its jumps, tracing, outer actions and sockets, `bind`, `load`, `quit`, and the debugger interface.
- Restriction and relabelling, which the original does not implement.
- `src/driver/verifier.c`, `compress_automaton`, `add_to_sorted_list`, `append` and the marking procedures that are not called.
- The ring of temporary elements behind `makelet`, and heads of type EPSILON or GC in `cons`.
- AgentRoundTrip.RoundTripExactly: an agent is printable when the unparser has a case for each of its expressions (else it raises a fatal error), its constants are not negative, as all that were read, and its receive parameters are single tokens, as of a longer one only the first token is written.
- Definitions with parameters, bindings, `fix`, restriction and relabelling in `src/parse`; and `ChannelQueue.MessageQueue.First` includes the test for an empty queue that its caller makes.
