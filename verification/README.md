# Kepler-Formal, a verified model

Kepler-Formal turns gate netlists into Boolean expressions, encodes them for solvers and
decides sequential equivalence of two designs. This project models the parts of it whose
correctness is a mathematical statement, and proves those statements for every input.
`dafny verify dfyconfig.toml` checks everything.

**From a netlist to an expression.** `Netlists` abstracts the netlist: terms lie on isos,
an iso has drivers, a driver computes a truth table over an ordered list of input terms,
and a valuation is consistent when every net equals its only driver and every driver its
table. `TruthTableTree` is the shared node graph with its ordered border of open inputs,
`AncestorLoop` the search behind the logical-loop check, `LogicCloud` the expansion that
grows the frontier and the graph together, told as a run of stages. `CloudMeaning` says what
the graph means, `CloudNumbers` what evaluation by stored input numbers means; `CloudBatch`,
`CloudSkew` and `CloudLoop` run `compute` on three small netlists.
`TruthTables`, `TableExprs`, `TableDnf`, `Divider` and `TableDivider` build the expression
of one table. `Design` states the equations of a finished graph and solves them, `Convert`
lowers the graph, `ConvertMeaning` ties the result to the netlist, `ConvertClash` and
`ConvertEnds` show where the conversion is wrong and where it does not end.

**Expressions and their encoders.** `BoolExpr` holds expressions as values, with the
structural order over an arbitrary hash function and the folding factories; `BoolExprCache`
is the hash-consed arena, proved to compute exactly those factories on nodes. `Traversal`,
`Simplify` and `Arithmetic` are the passes over them, `FullAdder` says exactly which shapes the last
of these recognises, `CnfWriter` is the Tseitin encoding, `Btor2Writer` and `Btor2Symbols` the BTOR2
text, whose meaning as a transition system follows the format description (Niemetz, Preiner, Wolf, Biere, CAV 2018).

**The sequential side.** `SecExport`, `SecStartup`, `SecGating` and `SecRuns` are the exported
timeline and the startup, reset and bad gating, up to an if-and-only-if between bad frames of
the exported model and failures of the obligation; `BaseCase` states the bounded base-case query over
the fields of the problem and proves that it and the exported model refute the same frames. `Sat` is
exact satisfiability over one or several frames, `Interpolant` and `OneStep` the enumerated
interpolant and the candidate built from it, `Imc` the exact frontier and the invariant check, `ImcCheck` when that check is exact and the
engine complete, `Batching` and `CraigScheduler` the output plans and the recursive splitting,
`ClockModel` the clock event classification and `ClockForms` what it says about the common gated clocks.

Results about the code that a reader might not expect:

- The loop check of a batch looks at the graph before the batch. One reuse after a negative
  answer keeps the graph acyclic (`ReuseAcyclicIff`), but two reuses in one batch can close a
  loop that neither closes alone: `TwoReusesCloseALoop` runs `compute` on such a netlist. A
  finished graph is acyclic exactly when the cone of its root is (`GraphIsAcyclicIffCone`), and
  the conversion of that cyclic one never ends (`CrossedNeverEnds`).
- The loop check follows assigns through terms at which the expansion would stop, so it can report
  an acyclic cone (`CutIsReported`). When no such trail stops, a reported loop is a loop of the
  cone (`ReportIsRight`); for one report, its chain lies in the cone exactly when nothing on its
  trail stops (`TrailInConeIffClear`).
- `concatFull` numbers the new leaves of each batch from 0 and does not renumber the leaves it keeps
  at ports. `BatchInOrderIff` says exactly when number and border position still agree, and
  `NumbersCollide` shows a cone of three inputs whose stored evaluation is wrong.
- The conversion keeps one expression per net, that of the first node it builds there. Two ports of
  one net with two names therefore get one of the names (`TwoNamesOneNet`), and a port on the net of
  a table clashes with the table (`PortOnTableNet`). With one name per net, and ports apart from the
  nets of tables and sibling outputs, the result is the evaluation of the graph in every environment.
- When all inputs of the root cell are primary inputs themselves, the expansion loop is not
  entered and the open inputs stay below the root table instead of below ports, which the
  conversion does not accept; `Compute` states this as an equivalence. When the seed is driven
  by a primary input, or the root table has no inputs, `compute` returns before it publishes
  its inputs, and the model does the same.
- The inductiveness query carries the equations of the invariant's own states only, so it also sees
  steps that the remaining equations and the validity of the rails block. Where nothing is blocked,
  in particular in binary problems, it is exact (`AcceptedIffStepsKeep`, `BinaryIsLive`); elsewhere it
  can reject an invariant that every step keeps (`BlockedIsRejected`). What it accepts is always safe
  (`AcceptedProvesSafety`).
- `runCraigOutputRange` needs a nonempty range: an empty one would be split into itself. The
  plans never produce one.
- Table select, the divider and the DNF are stated for all widths. Signed division follows
  section 11.4.3 of IEEE 1800-2017, and most negative divided by -1 is the one quotient that
  does not fit its width.

## Model

| member | source | states |
|---|---|---|
| BoolExprs.EvalDependsOnSupport | src/formal/BoolExpr.cpp:469-537 | the value of an expression depends only on its free variables |
| BoolExprs.LessTotal | src/formal/BoolExpr.h:81-118 | of two different expressions exactly one is smaller, for every hash function |
| BoolExprs.LessTransitive | src/formal/BoolExpr.h:81-118 | the structural order is transitive under any hash collisions |
| BoolExprs.Ordered | src/formal/BoolExpr.cpp:246-277 | storing the children smaller one first keeps the meaning and the support |
| BoolExprs.MkNot | src/formal/BoolExpr.cpp:311-322 | negation in every environment, no new variables, with the constant and double-negation folds |
| BoolExprs.MkAnd | src/formal/BoolExpr.cpp:324-354 | conjunction in every environment, no new variables, through all folds |
| BoolExprs.MkOr | src/formal/BoolExpr.cpp:356-384 | disjunction in every environment, no new variables, through all folds |
| BoolExprs.MkXor | src/formal/BoolExpr.cpp:386-410 | exclusive or in every environment, no new variables, through all folds |
| BoolExprs.MkEqual | src/sec/common/BoolExprUtils.h:47-49 | equality of the operands in every environment |
| BoolExprs.GateCommutes | src/formal/BoolExpr.cpp:324-410 | swapping the operands of And, Or or Xor gives the identical expression |
| BoolExprCaching.UnfoldInjective | src/formal/BoolExprCache.cpp:112-171 | in every canonical cache state structurally equal interned nodes are the same node |
| BoolExprCaching.PtrLessIsLess | src/formal/BoolExpr.h:81-118 | on interned nodes the pointer-based comparison is the structural order |
| BoolExprCaching.InternedOrderIsTotal | src/formal/BoolExpr.h:81-118 | the comparison is a strict total order on interned nodes under any hash collisions |
| BoolExprCaching.CanonicalGateKey | src/formal/BoolExprCache.cpp:112-140 | the key built for a gate depends only on the unordered pair of operands |
| BoolExprCaching.BoolExprCache.constructor | src/formal/BoolExprCache.cpp:58-70 | the empty cache is canonical |
| BoolExprCaching.BoolExprCache.GetExpression | src/formal/BoolExprCache.cpp:112-171 | look-up or insert keeps the cache canonical, keeps all old nodes and returns the node of the requested structure |
| BoolExprCaching.BoolExprCache.Intern | src/formal/BoolExprCache.cpp:141-171 | a present key returns the present node, a missing one adds exactly one node |
| BoolExprCaching.BoolExprCache.VarNode | src/formal/BoolExpr.cpp:306-309 | the interned node of a variable |
| BoolExprCaching.BoolExprCache.NotNode | src/formal/BoolExpr.cpp:311-322 | the node denotes the folded negation of the operand's expression |
| BoolExprCaching.BoolExprCache.And | src/formal/BoolExpr.cpp:324-354 | the pointer tests on interned nodes compute exactly the structural conjunction |
| BoolExprCaching.BoolExprCache.Or | src/formal/BoolExpr.cpp:356-384 | the pointer tests on interned nodes compute exactly the structural disjunction |
| BoolExprCaching.BoolExprCache.Xor | src/formal/BoolExpr.cpp:386-410 | the pointer tests on interned nodes compute exactly the structural exclusive or |
| BoolExprCaching.BoolExprCache.SwappedOperands | src/formal/BoolExpr.cpp:324-410 | building a gate and then the same gate with swapped operands returns the identical node |
| Traversals.Evaluate | src/formal/BoolExpr.cpp:469-537 | the two-phase stack walk returns the value of the DAG, or names a variable of its support that is not bound, and it ends on every DAG |
| Traversals.SupportVars | src/formal/BoolExpr.cpp:652-679 | the worklist returns exactly the set of variables of the DAG |
| Simplification.Rebuilt | src/formal/BoolExpr.cpp:558-650 | bottom-up rebuilding through the factories keeps the value in every environment |
| Simplification.PostOrder | src/formal/BoolExpr.cpp:558-600 | the stack walk lists every node after its children, the root included, and nothing outside the DAG |
| Simplification.Simplify | src/formal/BoolExpr.cpp:558-650 | the memoised pass over the post order is the bottom-up rebuild |
| Simplification.RebuiltIsReduced | src/formal/BoolExpr.cpp:558-650 | no folding rule applies anywhere in a simplified expression |
| Simplification.SimplifyIsIdleIffReduced | src/formal/BoolExpr.cpp:558-650 | simplify returns its argument if and only if no folding rule applies in it |
| Simplification.ReducedIsFoldFree | src/formal/BoolExpr.cpp:311-410 | no factory folds an expression exactly when it has no constant, repeated or complementary operand and no double negation, and the smaller operand first everywhere |
| ArithmeticNormalization.OrTerms | src/formal/BoolExpr.cpp:44-54 | the collected terms are a disjunctive decomposition of the expression |
| ArithmeticNormalization.AndLiterals | src/formal/BoolExpr.cpp:56-79 | the collected literals are a conjunctive decomposition of the term |
| ArithmeticNormalization.MaskFromMeans | src/formal/BoolExpr.cpp:81-110 | the mask of a term holds exactly when its literals hold |
| ArithmeticNormalization.BuildMask | src/formal/BoolExpr.cpp:81-110 | the loop computes that mask; a foreign or repeated atom gives none |
| ArithmeticNormalization.XorMasksSayParity | src/formal/BoolExpr.cpp:125-195 | the four matched masks say three-input parity |
| ArithmeticNormalization.CarryMasksSayMajority | src/formal/BoolExpr.cpp:125-195 | the three matched masks say majority |
| ArithmeticNormalization.RewritePattern | src/formal/BoolExpr.cpp:125-195 | the loops over terms, atoms and masks compute the pattern match `Rewritten` |
| ArithmeticNormalization.RewrittenMeans | src/formal/BoolExpr.cpp:125-195 | each rewrite to a three-input XOR or to a majority keeps the value in every environment |
| FullAdders.SumIsRecognised | src/formal/BoolExpr.cpp:125-195 | the four odd minterms over three different atoms, in any order, become the three-input exclusive or of those atoms |
| FullAdders.CarryIsRecognised | src/formal/BoolExpr.cpp:125-195 | the four majority minterms or the three pairs, in any order, become generate or propagate-and-carry over those atoms |
| FullAdders.OnlyAddersAreRewritten | src/formal/BoolExpr.cpp:125-195 | every disjunction that is changed is one of these sums or carries |
| ArithmeticNormalization.Normalize | src/formal/BoolExpr.cpp:197-234 | the memoised recursion computes the bottom-up normal form, and every memo entry is one |
| ArithmeticNormalization.NormalizedMeans | src/formal/BoolExpr.cpp:197-234 | the normal form has the same value in every environment |
| FullAdders.NormalizedSum | src/formal/BoolExpr.cpp:197-234 | the whole recursion turns a sum output with nothing left to fold into the exclusive or of its atoms |
| FullAdders.NormalizedCarry | src/formal/BoolExpr.cpp:197-234 | and a carry output into the majority |
| Divider.MkIte | src/clauses/Tree2BoolExpr.cpp:282-292 | a multiplexer in every environment |
| Divider.SubtractBits | src/clauses/Tree2BoolExpr.cpp:294-315 | left operand plus borrow times the power equals right operand plus difference, with or without a borrow; the borrow says which operand is smaller |
| Divider.ConditionalNegate | src/clauses/Tree2BoolExpr.cpp:317-328 | two's-complement negation at the width exactly when the condition holds |
| Divider.UnsignedDivMod | src/clauses/Tree2BoolExpr.cpp:330-363 | for every width, operands and environment: dividend = quotient * divisor + remainder with remainder < divisor, or all ones and the dividend when the divisor is zero |
| Divider.SignedDivMod | src/clauses/Tree2BoolExpr.cpp:365-384 | truncated quotient and remainder with the dividend's sign, modulo the width, including most negative divided by -1 and division by zero |
| Divider.BuildDivMod | src/clauses/Tree2BoolExpr.cpp:365-384 | the signed or unsigned result; no result exactly for empty or unequal operand widths |
| Divider.TruncationIsUnique | src/clauses/Tree2BoolExpr.cpp:365-384 | truncating division determines quotient and remainder |
| Divider.SignedQuotientFits | src/clauses/Tree2BoolExpr.cpp:365-384 | the quotient fits the width if and only if it is not most negative divided by -1 |
| TableExprs.BuildGate | src/clauses/Tree2BoolExpr.cpp:471-508 | the folded AND, NAND, OR, NOR, XOR or XNOR of any number of inputs has the gate's value |
| TableExprs.PruningIsExact | src/clauses/Tree2BoolExpr.cpp:218-231 | the 64-bit prefix test equals the unbounded one: it prunes only prefixes with no address below the depth |
| TableExprs.NextPrefixIsSafe | src/clauses/Tree2BoolExpr.cpp:239-243 | extending a prefix that was not pruned never wraps 64 bits |
| TableExprs.TableSelectMeans | src/clauses/Tree2BoolExpr.cpp:218-253 | every recursive call selects the lane of the completed address, or false |
| TableExprs.TableSelectIsLookup | src/clauses/Tree2BoolExpr.cpp:255-264 | the expression is data[address] below the depth and false otherwise, for every address size and every 32-bit depth |
| TableDnf.IrrelevantInputs | src/clauses/Tree2BoolExpr.cpp:705-715 | changing any set of irrelevant inputs cannot change the output |
| TableDnf.NonConstantHasRelevant | src/clauses/Tree2BoolExpr.cpp:717-726 | a table with a 0 row and a 1 row has a relevant input |
| TableDnf.FindRelevant | src/clauses/Tree2BoolExpr.cpp:705-715 | an input is marked if and only if flipping it changes some row |
| TableDnf.BuildTerm | src/clauses/Tree2BoolExpr.cpp:735-752 | the term of a row holds exactly when the relevant inputs have the row's bits; there is none exactly when no input is relevant |
| TableDnf.BuildDnf | src/clauses/Tree2BoolExpr.cpp:702-765 | for every table that is not constant the DNF over relevant inputs equals the table at every row |
| TableDivider.WordsAreUnique | src/clauses/Tree2BoolExpr.cpp:386-466 | the operand bits determine both result words |
| TableDivider.BuildDivModWords | src/clauses/Tree2BoolExpr.cpp:405-416 | operands arrive most significant bit first; every bit of both words has its table's value |
| TruthTableTrees.TruthTableTree.constructor | src/clauses/SNLTruthTableTree.cpp:467-497 | the root over its open inputs is a well-formed graph whose border is exact and in input order |
| TruthTableTrees.TruthTableTree.Reuse | src/clauses/SNLTruthTableTree.cpp:684-738 | an existing table node is connected; nothing else changes |
| TruthTableTrees.TruthTableTree.AddConstant | src/clauses/SNLTruthTableTree.cpp:750-769 | a zero-input table closes its position |
| TruthTableTrees.TruthTableTree.AddNode | src/clauses/SNLTruthTableTree.cpp:745-822 | a new node takes the replaced leaf as its first child and fresh leaves as the others, all numbered onward from the number of external inputs |
| TruthTableTrees.TruthTableTree.ConcatBody | src/clauses/SNLTruthTableTree.cpp:659-822 | one merge keeps the graph well formed, indexes exactly one node per table term, leaves one parent exactly when the node is new, and numbers the new node's leaves onward while all other leaves keep their numbers |
| TruthTableTrees.TruthTableTree.ConcatFull | src/clauses/SNLTruthTableTree.cpp:996-1110 | a batch keeps the graph well formed and its border exact, border leaf i is the net of entry i of the next frontier, and the stored numbers are those of `MarksAfter`: leaves at ports keep theirs and all others are numbered from 0 |
| TruthTableTrees.MergeKeepsGraph | src/clauses/SNLTruthTableTree.cpp:659-822 | shape, index, leaf ownership and parent links survive every merge |
| TruthTableTrees.MergeKeepsAlignment | src/clauses/SNLTruthTableTree.cpp:1032-1102 | the merged leaf is replaced, position by position, by the nets that the merge opens |
| TruthTableTrees.MergeKeepsMarks | src/clauses/SNLTruthTableTree.cpp:777-791 | a merge replaces the stored number of its leaf by the numbers of the leaves it opens, and no other position shares that leaf |
| AncestorLoops.SearchAncestors | src/clauses/SNLTruthTableTree.cpp:594-647 | the depth-first search finds the target exactly when it is an ancestor, along a real parent path, and ends on every graph |
| AncestorLoops.FindAncestorLoop | src/clauses/SNLTruthTableTree.cpp:525-650 | true exactly when the target is the leaf's parent or an ancestor of it; the reported terms are those of a parent path; it ends on every reachable graph |
| AncestorLoops.ReuseKeepsAcyclic | src/clauses/SNLTruthTableTree.cpp:706-738 | after a negative answer one reuse keeps the graph acyclic |
| AncestorLoops.ReuseAcyclicIff | src/clauses/SNLLogicCloud.cpp:1655-1696 | one reuse keeps an acyclic graph acyclic if and only if the answer is negative |
| AncestorLoops.RootIsAncestor | src/clauses/SNLTruthTableTree.cpp:525-650 | the root is an ancestor of every node, so a reuse of the root is always reported |
| LogicClouds.ResolveTransparentLoopTarget | src/clauses/SNLLogicCloud.cpp:1202-1254 | the end of the walk through nets and assigns, or the first term it repeats; it follows the netlist |
| LogicClouds.TransparentTargetIsUnique | src/clauses/SNLLogicCloud.cpp:1202-1254 | the transparent target of a term is unique |
| LogicClouds.ReachedPIs | src/clauses/SNLLogicCloud.cpp:1476-1486 | true exactly when every frontier entry is an input, lies on a constant net, or is the cached driver of its net |
| LogicClouds.MergeFor | src/clauses/SNLLogicCloud.cpp:1505-1637 | a merge exactly when the net ends at a port or its sole driver is a supported cell with matching arity; otherwise the one reason that applies, an opaque driver before all others of a driven net |
| LogicClouds.CollectMerges | src/clauses/SNLLogicCloud.cpp:1501-1646 | one merge per entry and the next frontier from first expansions only, exactly when no entry blocks; otherwise the reason of the first entry that does |
| LogicClouds.FindLoop | src/clauses/SNLLogicCloud.cpp:1655-1696 | reports exactly when some merge, or what it stands for, lies above its own leaf; a report is a report of `Reported`, and where no transparent trail between cells of the cone stops, the cone really has a combinational loop |
| LogicClouds.LoopIsReported | src/clauses/SNLLogicCloud.cpp:1655-1696 | a positive answer names a cell of the cone, its net, the driver and a trail from the driver to a table above the cell |
| LogicClouds.ClearReportIsRight | src/clauses/SNLLogicCloud.cpp:1202-1254 | a report whose trail has no stop closes a combinational loop of the cone |
| LogicClouds.TrailInConeIffClear | src/clauses/SNLLogicCloud.cpp:1202-1254 | the reported chain lies in the cone if and only if nothing on its trail stops |
| LogicClouds.ReportIsRight | src/clauses/SNLLogicCloud.cpp:1680-1696 | when no trail between cells of the cone stops, an acyclic cone is never reported as a loop |
| LogicClouds.LogicCloud.Start | src/clauses/SNLLogicCloud.cpp:1333-1406 | the seed's driver, its graph and its aligned first frontier, or the exact reason for none |
| LogicClouds.LogicCloud.Round | src/clauses/SNLLogicCloud.cpp:1468-1706 | every round keeps frontier, border and stored numbers in step; it gives up with the reason of the first blocked entry and only then, it fails with a loop only if the check says yes for its merges, and succeeds only if it says no for all of them; neither mismatch check fires |
| LogicClouds.LogicCloud.Expand | src/clauses/SNLLogicCloud.cpp:1468-1706 | the loop ends on every finite netlist, cyclic or not, with a frontier of stops only; its rounds form a run, and each refusal or loop is the one that the last round of the run reports |
| LogicClouds.LogicCloud.Compute | src/clauses/SNLLogicCloud.cpp:1333-1706 | a run from the seed stage to an aligned graph without opaque cells whose open inputs all sit at ports unless all root inputs are primary, or no graph and an exact reason in the cone; a loop is reported only where the check says yes, and is a loop of the cone when no trail stops |
| LogicClouds.GraphIsSupported | src/clauses/SNLLogicCloud.cpp:1555-1600 | no node of a graph, and no table in its index, stands for an opaque cell or a primary input |
| CloudLoop.CutIsReported | src/clauses/SNLLogicCloud.cpp:1202-1254 | a netlist with an acyclic cone that is reported as a loop, because the trail walks through a declared primary input |
| CloudMeaning.NodeValue | src/clauses/SNLTruthTableTree.cpp:274-325 | for every consistent valuation that gives the open leaves the values of their nets, every node has the value of its net |
| CloudMeaning.RootValue | src/clauses/SNLLogicCloud.cpp:1468-1706 | in every round the graph, with its leaves set to the values of the frontier nets, gives the root the value of its net |
| CloudNumbers.BatchInOrderIff | src/clauses/SNLTruthTableTree.cpp:996-1110 | after a batch every stored number equals its border position if and only if each kept port leaf comes out at its number and new leaves come before all kept ones |
| CloudNumbers.EvalIsEvalNode | src/clauses/SNLTruthTableTree.cpp:274-325 | evaluation by stored numbers is evaluation with each leaf reading the input of its number, if all numbers are in range |
| CloudNumbers.EvalIsValue | src/clauses/SNLTruthTableTree.cpp:274-325 | in every round evaluation by stored numbers gives the root its value in the valuation whose frontier nets have the values of the inputs that the numbers select |
| CloudNumbers.InOrderEvalIsValue | src/clauses/SNLTruthTableTree.cpp:506-525 | with the numbers in order, input j is the value of border position j |
| CloudSkew.NumbersCollide | src/clauses/SNLTruthTableTree.cpp:1003-1028 | for the conjunction of an input with the conjunction of two others the finished graph stores the numbers 0, 0, 1, and evaluation of (1, 1, 0) is true |
| CloudMeaning.TablesAreCone | src/clauses/SNLLogicCloud.cpp:1468-1706 | a finished graph holds exactly the drivers that the root depends on |
| CloudMeaning.ConeRanksGraph | src/clauses/SNLTruthTableTree.cpp:659-822 | over an acyclic cone the graph is acyclic in every round |
| CloudMeaning.GraphIsAcyclicIffCone | src/clauses/SNLLogicCloud.cpp:1655-1696 | a finished graph is acyclic if and only if the cone is |
| CloudBatch.TwoReusesCloseALoop | src/clauses/SNLLogicCloud.cpp:1655-1699 | compute on a netlist of two cells that read each other: before its second batch the graph is acyclic and the check says no to every merge, and the finished graph is cyclic |
| Tree2BoolExprs.BuildTable | src/clauses/Tree2BoolExpr.cpp:670-777 | the expression of any explicit, gate or select table has the table's value over the children |
| Tree2BoolExprs.BuildDivider | src/clauses/Tree2BoolExpr.cpp:386-466 | the selected bit is right and so is every sibling output that is published with it |
| Tree2BoolExprs.BuildNode | src/clauses/Tree2BoolExpr.cpp:663-777 | a node's expression and the grown cache are right for every solution of the graph's equations |
| Tree2BoolExprs.FirstExpansion | src/clauses/Tree2BoolExpr.cpp:569-597 | on an acyclic graph no node is expanded twice |
| Tree2BoolExprs.Convert | src/clauses/Tree2BoolExpr.cpp:543-785 | ends on every acyclic closed graph; expands no node twice, publishes the nets of exactly the nodes it expands, and from an empty cache, if nodes do not share nets, expands every node; for every environment, if ports of one net share a name, no port sits on a table's or sibling's net, and siblings read the same inputs, the result is what evaluation gives the root under the names; in general it has the root net's value for every solution of the start cache and of the equations of the nodes that were the first of their net to be built |
| Designs.SolutionExists | src/clauses/Tree2BoolExpr.cpp:543-785 | for every environment the equations of the graph and the names have a solution, in which each node has the value that evaluation gives it |
| Designs.NameReads | src/clauses/Tree2BoolExpr.cpp:631-650 | the names 0 and 1 are the constants, any other name is a variable of the environment |
| Tree2BoolExprs.ResultIsValue | src/clauses/Tree2BoolExpr.cpp:543-785 | the result and the grown cache have the values that evaluation gives the nodes, so a later conversion of the graph finds a cache that agrees |
| Tree2BoolExprs.AllAreExpanded | src/clauses/Tree2BoolExpr.cpp:569-597 | from an empty cache, when no node publishes the net of another, every node of the graph is expanded |
| ConvertClashes.TwoNamesOneNet | src/clauses/Tree2BoolExpr.cpp:575-588 | two ports of one net with two names: all other conditions hold, the conversion succeeds, and it differs from evaluation in some environment |
| ConvertClashes.PortOnTableNet | src/clauses/Tree2BoolExpr.cpp:575-588 | a port on the net of a table: all other conditions hold, the conversion succeeds, and it differs from evaluation in some environment |
| ConvertEnds.EndedIsAcyclic | src/clauses/Tree2BoolExpr.cpp:561-597 | from an empty cache, when no node publishes the net of another, the stack walk ends on acyclic graphs only |
| ConvertEnds.CrossedNeverEnds | src/clauses/Tree2BoolExpr.cpp:561-597 | on the cyclic graph that two reuses close the stack never empties |
| ConvertMeaning.ConsistentSolves | src/clauses/Tree2BoolExpr.cpp:543-785 | a consistent netlist valuation solves the equations of the graph |
| ConvertMeaning.ConvertedCloudIsSeed | src/clauses/Tree2BoolExpr.cpp:543-785 | the converted cloud has the value of the seed's driver in every consistent valuation of the netlist that gives the ports their names |
| CnfWriter.GateClausesDefine | src/formal/BoolExprCnfWriter.cpp:196-234 | the clauses of a gate hold exactly when its literal equals the gate of its operands |
| CnfWriter.NamesAreDistinct | src/formal/BoolExprCnfWriter.cpp:140-170 | different variables have different names, also from the constants' names |
| CnfWriter.EncodeBoolExprToCnf | src/formal/BoolExprCnfWriter.cpp:114-246 | whatever the child order: every environment extends to a model, every model gives the root literal the root's value, and all literals lie in range |
| CnfWriter.EquisatisfiableWithRoot | src/formal/BoolExprCnfWriter.cpp:114-246 | the clauses with the root asserted are satisfiable if and only if the root is |
| Btor2Symbols.DecodeEncode | src/formal/Btor2Writer.cpp:18-36 | the escaped suffix decodes to the symbol and holds no separator |
| Btor2Symbols.SuffixInjective | src/formal/Btor2Writer.cpp:18-36 | different symbols have different suffixes |
| Btor2Symbols.PrintedAsItIs | src/formal/Btor2Writer.cpp:18-36 | a name is printed unchanged exactly when it has no blank, control or non-ASCII byte, no semicolon and no percent sign |
| Btor2.EmitKeepsConsistent | src/formal/Btor2Writer.cpp:38-51 | appending an admissible line keeps the text well formed and the input flags exact |
| Btor2.ValuesAreNeutral | src/formal/Btor2Writer.cpp:97-131 | value lines add no initial, step, constraint or bad condition |
| Btor2.Btor2Writer.constructor | src/formal/Btor2Writer.cpp:14-16 | the text of one sort line is well formed |
| Btor2.Btor2Writer.Emit | src/formal/Btor2Writer.cpp:38-51 | the next ID and one line, or the overflow error exactly at the ID limit |
| Btor2.Btor2Writer.NewInput | src/formal/Btor2Writer.cpp:65-68 | one input line |
| Btor2.Btor2Writer.NewState | src/formal/Btor2Writer.cpp:70-73 | one state line |
| Btor2.Btor2Writer.NewConst | src/formal/Btor2Writer.cpp:75-82 | one shared line per constant |
| Btor2.Btor2Writer.BindVariable | src/formal/Btor2Writer.cpp:84-95 | binds exactly ordinary variables to values, never twice to different nodes |
| Btor2.Btor2Writer.LogicalNot | src/formal/Btor2Writer.cpp:97-104 | a negation line, or the error of its operand |
| Btor2.Btor2Writer.NewBinary | src/formal/Btor2Writer.cpp:106-131 | a connective line, or the error of its operands |
| Btor2.Btor2Writer.Expression | src/formal/Btor2Writer.cpp:133-201 | no DAG is rejected as cyclic; the line evaluates to the expression under the bindings; only an unbound variable or the ID limit is an error |
| Btor2.Btor2Writer.NewInit | src/formal/Btor2Writer.cpp:203-230 | an init line exactly when the state is declared after the value, has none yet, and the value has no input in its cone |
| Btor2.Btor2Writer.NewNext | src/formal/Btor2Writer.cpp:203-234 | a next line exactly when the state has none yet |
| Btor2.Btor2Writer.NewConstraint | src/formal/Btor2Writer.cpp:236-245 | a constraint line for a value node |
| Btor2.Btor2Writer.NewBad | src/formal/Btor2Writer.cpp:236-249 | a bad line for a value node |
| Btor2.Btor2Writer.NewOutput | src/formal/Btor2Writer.cpp:236-253 | an output line for a value node |
| SecExport.MatchesMeansEqual | src/sec/export/SecBtor2Exporter.cpp:49-56 | all bits agree with a frame number exactly when the counter holds it |
| SecExport.TimelineStep | src/sec/export/SecBtor2Exporter.cpp:38-46 | one step counts up to the last frame and stays there |
| SecExport.At | src/sec/export/SecBtor2Exporter.cpp:49-56 | the written node is the bitwise match with the frame number |
| SecExport.Before | src/sec/export/SecBtor2Exporter.cpp:58-71 | the written node is the comparison of the counter with the frame number |
| SecStartup.BuildTimeline | src/sec/export/SecBtor2Exporter.cpp:31-47 | the text adds exactly: counter zero initially, and the ripple step with saturation |
| SecGating.TimelineAt | src/sec/export/SecBtor2Exporter.cpp:49-56 | counter equal to the frame, for every frame the bits can hold |
| SecGating.TimelineBefore | src/sec/export/SecBtor2Exporter.cpp:58-71 | counter less than the frame, for every frame the bits can hold |
| SecGating.FirstFrame | src/sec/export/SecBtor2Exporter.cpp:73-83 | the counter is zero, or a marker state that is set only initially |
| SecGating.ConstrainWhen | src/sec/export/SecBtor2Exporter.cpp:91-93 | adds exactly the implication as a constraint |
| SecGating.WriteInits | src/sec/export/SecBtor2Exporter.cpp:251-261 | adds exactly the listed initial values, once per state; conflicting lists are refused |
| SecGating.StageInitial | src/sec/export/SecBtor2Exporter.cpp:248-265 | adds exactly the initial values, or the initial condition at the first frame, or nothing |
| SecGating.StageObservation | src/sec/export/SecBtor2Exporter.cpp:266-269 | adds exactly the property at the first frame when the initial state is not complete |
| SecGating.StageReset | src/sec/export/SecBtor2Exporter.cpp:270-278 | adds exactly: every reset port at its active level before the reset frame and at the inactive level from it on |
| SecGating.StageFrontier | src/sec/export/SecBtor2Exporter.cpp:279-288 | adds exactly the observed property and the bootstrap values at the reset frame, all of declared states |
| SecGating.StageBad | src/sec/export/SecBtor2Exporter.cpp:290-294 | adds exactly the bad condition from the first bad frame on |
| SecRuns.Export | src/sec/export/SecBtor2Exporter.cpp:230-294 | the whole startup part adds exactly the timeline, the gated constraints and the gated bad condition, and succeeds only if all symbols it uses are declared |
| SecRuns.RunShowsFrame | src/sec/export/SecBtor2Exporter.cpp:29-89 | in every run the timeline holds min(t, last frame), and the marker is set only at frame 0 |
| SecRuns.ConstraintsAreStartup | src/sec/export/SecBtor2Exporter.cpp:230-294 | at frame t the written constraints are the startup rules of frame t: reset asserted exactly before the reset frame, the frontier at exactly one frame, bad only from the first bad frame on |
| SecRuns.ExportedRunIsStartupRun | src/sec/export/SecBtor2Exporter.cpp:230-294 | every run of the exported model is a run of the obligation that follows its startup rules |
| SecRuns.StartupRunIsExported | src/sec/export/SecBtor2Exporter.cpp:230-294 | every run of the obligation that follows the startup rules extends to a run of the exported model |
| SecRuns.ExportIsExact | src/sec/export/SecBtor2Exporter.cpp:230-294 | a bad frame k is reachable in the exported model if and only if the obligation fails at frame k, for any consistent prelude |
| BaseCases.StartupIsQuery | src/sec/kinduction/BaseCaseSolver.cpp:914-1010 | on every frame the exported startup rules hold exactly when the constraints of the base-case query do |
| BaseCases.ExportedRunIsQuery | src/sec/kinduction/BaseCaseSolver.cpp:1581-1760 | every exported run is a model of the base-case query, and is bad at exactly the checked frames at which the bad condition holds |
| BaseCases.ExportIsBaseCase | src/sec/kinduction/BaseCaseSolver.cpp:1581-1760 | the exported model has a counterexample within k frames, or at one given frame, if and only if the base-case query finds one |
| BaseCases.BadAfterPrefix | src/sec/export/SecBtor2Exporter.cpp:230-294 | with a reset prefix: every reset input is active below the prefix and inactive from it on, and a frame is bad exactly when the condition holds there, it is not below the prefix, and it is past the observed frame if states are unnamed |
| BaseCases.BadWithoutPrefix | src/sec/export/SecBtor2Exporter.cpp:230-294 | without one: a frame is bad exactly when the condition holds there, and it is not frame 0 if the start is not fully known; then the property holds at frame 0 |
| Sat.SolveIsExact | src/sec/proof/ProofEngineShared.cpp:449-470 | the solver's answer is the existence of an environment |
| Sat.SolveFramesIsExact | src/sec/imc/IMCEngine.cpp:552-580 | a query over frames is satisfiable exactly when a sequence of frames meets its constraints |
| Interpolants.BuildAssignmentCube | src/sec/imc/ExactInterpolantSynthesizer.cpp:22-32 | the cube holds exactly in the environments with the assignment's bits |
| Interpolants.EnumerateCubes | src/sec/imc/ExactInterpolantSynthesizer.cpp:48-59 | the enumerated formula is the projection of the left side on the shared symbols |
| Interpolants.ComputeExactInterpolant | src/sec/imc/ExactInterpolantSynthesizer.cpp:34-73 | implied by the left side, disjoint from the right side, over shared symbols only; when the sides share only those symbols it exists exactly if they are jointly unsatisfiable, so no re-check rejects it |
| Interpolants.InterpolantIsStrongest | src/sec/imc/ExactInterpolantSynthesizer.cpp:34-73 | every formula over the shared symbols that the left side implies is implied by the interpolant |
| OneStepInterpolants.BuildOneStepTransition | src/sec/proof/ProofEngineShared.cpp:381-421 | over fresh next-state symbols the formula holds exactly for a legal step of all transitions |
| OneStepInterpolants.ProjectionIsImage | src/sec/imc/ExactInterpolantSynthesizer.cpp:96-123 | the projection on the next-state symbols, restored, is the one-step image of the initial frontier |
| OneStepInterpolants.DeriveOneStepInvariant | src/sec/imc/ExactInterpolantSynthesizer.cpp:82-145 | the invariant holds exactly in the one-step image, in no bad state, and passed the induction check; none, for a bad condition over states and inputs, only when a bad state is one step away or the image is rejected |
| Imc.IsStateReachableAtDepth | src/sec/imc/IMCEngine.cpp:552-580 | satisfiable exactly when a legal path of that length ends in the state |
| Imc.BuildExactReachableStateInvariant | src/sec/imc/IMCEngine.cpp:582-625 | the formula holds exactly in the states reachable in at most depth steps; none exactly when nothing can be enumerated or reached |
| Imc.SaturatedIsAll | src/sec/imc/IMCEngine.cpp:1397-1463 | once the frontier stops growing it holds every reachable state |
| Imc.AcceptedIffKept | src/sec/proof/ProofEngineShared.cpp:526-577 | an invariant is accepted if and only if every step that the query sees keeps it, for any declared symbols and requested targets |
| ImcChecks.RequestedIsTarget | src/sec/proof/ProofEngineShared.cpp:215-240 | the query has the equation of every requested symbol, or of the primary of a requested complement |
| ImcChecks.TargetIsMove | src/sec/proof/ProofEngineShared.cpp:215-240 | and no equation that is not a move of the problem |
| ImcChecks.QuerySymbols | src/sec/proof/ProofEngineShared.cpp:242-276 | the declared symbols and requested targets cover the invariant, its cone, the reset inputs and the pair partners, when no pair continues another |
| ImcChecks.AcceptedIffStepsKeep | src/sec/proof/ProofEngineShared.cpp:526-577 | with covering symbols and no blocked step, an invariant is accepted if and only if every step of all moves, with pairs valid, reset released and the learned relation at the first frame, keeps it |
| ImcChecks.BinaryIsLive | src/sec/proof/ProofEngineShared.cpp:526-577 | without rails no step of a problem is blocked, so the check is exact |
| ImcChecks.BlockedIsRejected | src/sec/proof/ProofEngineShared.cpp:526-577 | where the rails of another state can block a step, the check rejects an invariant that every step keeps |
| Imc.AcceptedIsKept | src/sec/proof/ProofEngineShared.cpp:526-577 | in particular an accepted invariant is kept by every legal step |
| Imc.AcceptedProvesSafety | src/sec/imc/IMCEngine.cpp:650-660 | whenever the check accepts, no unbounded run from the initial frontier reaches a bad state |
| Imc.TryFrontier | src/sec/imc/IMCEngine.cpp:1430-1456 | one depth proves safety, or its candidate was rejected |
| Imc.RunImc | src/sec/imc/IMCEngine.cpp:1371-1464 | Equivalent implies safety of all runs from the startup condition, and its bound is the first depth whose frontier was accepted, or 1 for the strengthening; Different comes from the counterexample search; Inconclusive only after every depth was rejected |
| ImcChecks.SettledIsNotRejected | src/sec/imc/IMCEngine.cpp:582-700 | with at most twelve state bits a frontier that has settled without a bad state is never rejected |
| ImcChecks.RunSettles | src/sec/imc/IMCEngine.cpp:1371-1464 | so the engine answers Equivalent when the frontier settles by the last depth and the search finds nothing |
| Batching.TilesCover | src/sec/kinduction/OutputBatching.cpp:102-134 | every output lies in exactly one range of a plan |
| Batching.BuildSupportBoundedOutputBatches | src/sec/kinduction/OutputBatching.cpp:102-134 | the batches partition the outputs, respect the limits unless single, and cannot be extended |
| Batching.BuildCraigPlans | src/sec/imc/IMCEngine.cpp:1277-1338 | for any admission test the plans partition the outputs, always make progress and cannot be extended |
| Batching.ConfigureOutputBatch | src/sec/kinduction/OutputBatching.cpp:162-225 | the slice holds the outputs of the range, its property is their equality and its bad the negation |
| Batching.SlicesConjoin | src/sec/kinduction/OutputBatching.cpp:206-217 | the slice properties of a plan conjoin to the whole property |
| CraigScheduling.Scheduler.constructor | src/sec/imc/IMCEngine.cpp:1226-1230 | no output is covered at first |
| CraigScheduling.Scheduler.MarkCovered | src/sec/imc/IMCEngine.cpp:830-838 | covers exactly the range in addition to what was covered |
| CraigScheduling.Scheduler.RunRange | src/sec/imc/IMCEngine.cpp:944-1210 | a reused invariant or a proof of the range itself decides it, with its bound; a candidate is probed and never split; for any answers the splitting ends, Equivalent covers the whole range, no coverage is lost, and every uncovered output lies in a part that was tried and stopped |
| CraigScheduling.Scheduler.Split | src/sec/imc/IMCEngine.cpp:1120-1166 | both halves run and their answers combine, a witness first; an output that is left uncovered lies in a part that stopped there, so one half keeps its coverage when the other is inconclusive |
| CraigScheduling.Scheduler.RunAll | src/sec/imc/IMCEngine.cpp:1212-1265 | the answer is that of trying the planned ranges in order; Equivalent implies that every output is covered; otherwise all outputs before the failing range are covered and the uncovered ones inside it lie in parts that stopped |
| CraigScheduling.ScheduledBound | src/sec/imc/IMCEngine.cpp:1054-1166 | the bound of a proved range is that of a proof inside it, and the bound of an open one is the last depth or that of an exhausted attempt inside it |
| CraigScheduling.CoveredOutputHolds | src/sec/imc/IMCEngine.cpp:830-838 | a covered output is equal in every reachable environment, if claimed proofs are proofs |
| CraigScheduling.AllCoveredProvesProperty | src/sec/imc/IMCEngine.cpp:1258-1264 | when every output is covered the whole property holds in every reachable environment |
| ClockModel.Substitute | src/clocks/SecClockModel.cpp:23-91 | the memoised recursion computes the substitution and every memo entry is one |
| ClockModel.SubstitutedMeans | src/clocks/SecClockModel.cpp:23-91 | evaluating after substitution is evaluating with the leaves' values |
| ClockModel.SpecializeClockCarrier | src/clocks/SecClockModel.cpp:93-98 | the value of the expression with the carrier fixed |
| ClockModel.SubstituteVariableExpressions | src/clocks/SecClockModel.cpp:193-267 | variables take the values of their replacements |
| ClockModel.SingleCarrierInSupport | src/clocks/SecClockModel.cpp:110-127 | the only carrier of the support, in whatever order it is visited; none when there is no or more than one |
| ClockModel.ClassifyClockEventExpression | src/clocks/SecClockModel.cpp:151-191 | classified exactly when one enable folds to false and the other does not; then never the opposite edge, and the reported edge exactly when the enable is true |
| ClockForms.PlainClock | src/clocks/SecClockModel.cpp:93-191 | a carrier has its own phase and its negation the other one, without an enable |
| ClockForms.AndGatedClock | src/clocks/SecClockModel.cpp:93-191 | a carrier and a condition: the condition is the enable |
| ClockForms.OrGatedClock | src/clocks/SecClockModel.cpp:93-191 | a carrier or a condition: the complement of the condition is the enable |
| ClockForms.XorClockIsRefused | src/clocks/SecClockModel.cpp:93-191 | a carrier of selectable phase is not classified |
| ClockForms.ConstantsAreClock | src/clocks/SecClockModel.cpp:93-191 | any expression that is false at one level of the carrier and true at the other is a clock without an enable |
| ClockForms.ClassifyPlain | src/clocks/SecClockModel.cpp:151-191 | the classifier accepts every carrier and every inverted one |
| ClockForms.ClassifyGated | src/clocks/SecClockModel.cpp:151-191 | and every conjunction or disjunction with a condition free of carriers that does not fold to a constant, with an enable equal to the condition or to its negation |
| ClockModel.EnableIgnoresCarrier | src/clocks/SecClockModel.cpp:151-191 | the enable does not depend on the carrier: at either value of it, it is true exactly when a change of the carrier changes the expression |

## Left out

- Naja DNL and SNL data structures, cell libraries and their truth-table sources: replaced by the abstract netlist.
- Thread-local buffers, TBB concurrency and insertion races in the caches: the model is sequential.
- Scoped and destroyed expression caches and their counters: a cache only grows in the model.
- The NONE operator and null expression pointers, which every entry point rejects.
- TruthTableTrees.TruthTableTree.constructor: the general depth-first `updateBorderLeaves` is modelled only on the fresh root it is called on.
- CloudNumbers.Eval: the size check of the tree before it evaluates is the hypothesis that there is one input for each border leaf; the 64-bit row index is not modelled.
- LogicClouds.LogicCloud.Compute: opaque cells are a predicate on terms, and the wide-mux input layout is part of the ordered input list; reports and skip texts are not modelled.
- LogicClouds.FindLoop: the per-run cache of transparent targets, a memo of a unique value, is not kept.
- Tree2BoolExprs.Convert: explicit tables have exactly two to the size rows, so row numbers of 64 bits or more do not arise; every term has an iso.
- Repair of mis-numbered graphs (`finalize`), printing and debug checks of the tree.
- CnfWriter.EncodeBoolExprToCnf: the stable keys are any order of the children; the DIMACS bytes, file output and 32-bit variable numbers are not modelled.
- Btor2.Btor2Writer.Emit: lines are data, not characters, except for the symbol suffix; comments, output streams and their failures are not modelled.
- SecRuns.Export: the prelude (symbol declarations, next-state lines, state relations and rail constraints) is any consistent text; the order of init lines is that of the assignment list, and the names of counter bits carry no number.
- BaseCases.ExportIsBaseCase: the query's restriction to the cone of influence, its depth-by-depth cache and the witness it extracts are not modelled; the transition and state relations of the query are those of the exported prelude.
- Imc.IsStateReachableAtDepth: frames are constraints over coded symbols; clause-level encoding and solver back ends are not modelled.
- Imc.AcceptedIsKept: one direction only, since the query sees more steps than there are legal ones; the converse, with its exact condition, is `AcceptedIffStepsKeep`.
- Imc.RunImc: the base-case counterexample search and the startup strengthening are arbitrary parameters, and so is the choice of query symbols, which `QuerySymbols` makes; the stateless and the large dual-rail entry are not part of it.
- CraigScheduling.Scheduler.RunRange: the Craig checker, the helper invariants and the witness search are arbitrary functions of the range and of the number of calls so far.
- Batching.ConfigureOutputBatch: names, skip reasons and strict-equality lists of a slice, which are copied by the same ranges, and the residual hypothesis store are not modelled.
- Batching.BuildCraigPlans: the admission test (overlap, support and projection limits) is an arbitrary predicate of the batch start and the next output.
- The k-induction and PDR engines, the dual-rail lifting, the Craig checker itself, option parsing, files, the Python binding and the command line.
