# A verified model of the STNG backend

STNG lifts Fortran stencil loops to a summary. Its backend takes a loop nest in a small IR,
computes verification conditions for a guessed postcondition and guessed loop invariants, and
prints them as a Sketch program or as Z3 input. This project models that backend as a compiler
and a verifier, gives its IR the meaning the repository's own interpreter gives it, and proves
that the two fit together. A second, smaller part covers the AST traversal engine bundled with
the front end.

## Organisation

| file | content |
|---|---|
| `StencilIr.dfy` | the IR, the printer, loop keys |
| `Interpret.dfy` | values, formulas and runs; the interpreter's loop on its dictionary |
| `Verify.dfy` | substitution and the condition generator, as functions and as the object that appends to one shared list; the order of the conditions |
| `VerifyTheorems.dfy` | exactness on loop-free code, soundness, the key counterexample |
| `Completeness.dfy` | relative completeness |
| `Hoare.dfy` | what the generated conditions mean, as rules over predicates on states |
| `Termination.dfy` | counting loops end |
| `Invariant.dfy` | the invariant generator and its visitors |
| `Nest.dfy`, `NestMeaning.dfy`, `NestCount.dfy`, `NestTrace.dfy`, `NestVcs.dfy`, `NestRuns.dfy` | perfect nests of any depth: tables, meaning and size of the generated invariants, the count along runs, the conditions they discharge, the end-to-end result |
| `Siblings.dfy`, `SiblingTables.dfy`, `SiblingCoverage.dfy`, `SiblingExamples.dfy` | programs of any shape: which executed iterations the generated clauses describe, and two programs in which some can be missed |
| `LoopOrder.dfy`, `LoopTrees.dfy`, `TreeTables.dfy`, `TreeMeaning.dfy`, `TreeVcs.dfy`, `TreeRuns.dfy`, `TreeInvariants.dfy`, `TreeNecessity.dfy`, `TreeExample.dfy` | loop nests of any shape: the inductive invariant, their runs, exactly when the generated invariants discharge the conditions, two examples |
| `GenerateSketch.dfy` | shapes of the conditions, the pointwise replacement |
| `AssertionToSketch.dfy`, `HoistedArrays.dfy` | implication flattening, emission, array copies |
| `Texts.dfy`, `StatementTexts.dfy` | unique readability of printed expressions, formulas and statements; what loop keys tell apart |
| `Pipeline.dfy` | all passes in a row, from a program to an assert program |
| `Z3Arrays.dfy`, `Resugar.dfy` | nested select/store, index resugaring |
| `Parser.dfy` | the expression grammar against the printer |
| `Symbolic.dfy` | the interpreter with symbolic array cells |
| `Traversal.dfy`, `CombinedTraversal.dfy` | the attribute-grammar stack machine, fused and chunked traversals |

The main line of argument is one chain. `Pipeline.Generate` runs the generator, the pointwise
pass and the emitter: its output fails nowhere if and only if the conditions are valid.
`VerifyTheorems.WpSound` turns valid conditions into a statement about every run, and
`Completeness.WpComplete` says that nothing was lost. `NestVcs.InvariantsDischargeConditions`
proves that the invariants generated for a perfect nest make the conditions valid, and
`NestRuns.NestComputes` puts all of it together: every such nest ends with its output computed.

Loops that hold several loops one after the other are treated in three steps.
`SiblingCoverage.DescribedExactly` says for every program which executed iterations the
generated clauses describe. `TreeRuns.TreeConditions` proves that "every executed iteration is
done" is inductive for loop trees of any shape, so that `TreeRuns.TreeComputes` holds for all of
them. `TreeInvariants.TreeInvariantsDischarge` joins the two, and `TreeNecessity.DischargeIff`
says that nothing weaker would do: the generated invariants make the conditions of a loop tree
valid if and only if variables without a range are left free (see below), or in every block only
the last loop holds further loops.

### Choices of the model

- Arithmetic is a parameter (`Model.bin`); only theorems that need it ask for integer addition
  and comparison (`Standard`). Invariants and the postcondition are predicates over argument
  values (`Model.calls`). Validity is taken over any set of admissible states that assignments
  do not leave.
- Runs carry a bound on iterations; theorems about ending runs quantify over every bound.
- Arrays are total: reading an unwritten cell gives `Undef`. The constant offset 99 and the
  array size disappear with this.
- A loop's key is its printed text; the source hashes it.
- A clause has no range for the variables of loops inside an earlier sibling
  (backend/invariant.py:196-212). The template that turns clauses into text
  (backend/generate_sketch.py:921) is not part of the repository, so the model keeps both
  readings: `NestMeaning.Allows` takes a flag `free` that says whether a variable without a
  range may have any value or rules the clause out. Every result about clauses holds for both
  values of the flag, and says where they differ. In a perfect nest every clause has all ranges
  (`NestMeaning.NothingIsFree`).
- Templates that add loop-variable bounds to the invariants are not part of this model. The
  bounds taken are `lo <= v <= hi` for the loop itself and `lo <= v < hi` for the loops around it.

### Where the code and its documentation disagree

- The docstring of `processAssignExp` promises `Q[e/x]`. The replacer does not enter the keys
  of augmented arrays (backend/verify.py:58-64). `Verify.ReplaceMeetsItsPromise` says exactly
  when the two agree; `VerifyTheorems.KeysMatter` is a program for which the returned formula
  holds at the start and the run still violates the postcondition. The results about whole
  programs hold with keys substituted, and as written for every program in which no assigned
  variable is pending in a key (`KeySafe`).
- A program without loops makes `to_str` print a bare call that asserts nothing
  (`AssertionToSketch.PreIsEmittable`).
- The invariant of a loop is meant to describe what has been executed so far. A loop of the
  outermost block gets no sibling clause (backend/invariant.py:177, backend/invariant.py:219):
  `SiblingExamples.TopLevelLoopIsMissed` is a program with executed iterations that no clause
  describes, under either reading of a missing range. The clause of an earlier sibling describes
  the loops nested inside it only when variables without a range are free;
  `SiblingExamples.InnerLoopIsMissed` is a program in which the two readings differ, and
  `TreeExample.BranchedDependsOnReading` says that its generated conditions are valid under one
  and not under the other. `SiblingCoverage.AllDescribedIff` gives the exact condition for both.
- A loop's clause does not list an array whose index omits the loop's variable
  (backend/invariant.py:265-266), so that what earlier iterations of such a loop wrote is not
  described (`SiblingCoverage.ListedWhereItDiffers`).
- `traverseInParallel` drops the last N mod t traversals when t does not divide N
  (`CombinedTraversal.CompleteIffDivides`).

## Model

| member | source | states |
|---|---|---|
| StencilIr.InnerTextsAreShorter | backend/stencil_ir.py:40-66 | the text of a loop is strictly longer than the text of every loop inside it, so a loop never shares its key with an inner one |
| Texts.FormulaTextsAreDistinct | backend/stencil_ir.py:40-64 | different formulas have different texts, with negations, calls, implications, the constant and augmented arrays |
| StatementTexts.PrintAlikeIff | backend/stencil_ir.py:55-66 | two statements print alike if and only if they agree up to the grouping of blocks and the iteration variables |
| StatementTexts.SameKeyIff | backend/stencil_ir.py:65-66 | two loops share a key if and only if their tests are the same and their bodies print alike |
| StatementTexts.DistinctLoopsIff | backend/generate_sketch.py:241-247 | the loops of a program have distinct keys if and only if no two of them agree up to grouping and iteration variables |
| Interpret.Coincidence | backend/interpret.py:84-105 | two states that agree on the variables an expression mentions give it the same value |
| Interpret.RunMonotone | backend/interpret.py:109-122 | a run that ended within a bound on iterations is the same run under every larger bound |
| Interpret.Interpreter.Visit | backend/interpret.py:109-122 | the visitor that updates one dictionary in place, with its while loop, ends in the state that the recursive semantics assigns to the program |
| Verify.ReplaceMeansAssign | backend/verify.py:41-50 | for every formula, full substitution evaluated in a state is the formula evaluated after the assignment: stacked augmentations, reads and writes inside indices included |
| Verify.ReplaceMeetsItsPromise | backend/verify.py:41-74 | the replacer as written delivers the documented `Q[e/x]` if and only if no augmentation key mentions the assigned variable or the assignment is to itself |
| Verify.KeysReadBefore | backend/verify.py:53-74 | what the written replacer computes for every formula: keys read the state in front of the assignment, everything else, the values under the keys included, the state behind it |
| Verify.ConditionsInOrder | backend/verify.py:75-118 | the appended conditions in order: from the last loop of a block to the first, for each loop its exit, those of the loops inside it, then its step, each with the loop's invariant and its test, negated or not, as hypothesis |
| Verify.WeakestPrecondition.Get | backend/verify.py:25-118 | the object appends to its shared list exactly the conditions of the functional generator, in order, and returns its formula; it raises in the same cases |
| Verify.BodyKeepsItsInvariants | backend/verify.py:96-104 | dropping a one-entry invariant map for the loop body loses no invariant the body needs, in both directions |
| Verify.WpDefined | backend/verify.py:87-118 | generation raises if and only if some loop of the program has no invariant |
| Verify.WpLocal | backend/verify.py:98-114 | the conditions depend only on the invariants of the program's own loops, so the reduced map gives the same conditions as the full one |
| VerifyTheorems.WpKeyVars | backend/verify.py:41-85 | only variables of pending array writes occur in keys of the formula in front of a program |
| VerifyTheorems.AssignExact | backend/verify.py:41-74 | the formula in front of an assignment has, in every state and model, the value the postcondition has after it |
| VerifyTheorems.LoopFreeExact | backend/verify.py:41-85 | for loop-free code there are no side conditions and the formula's value is the postcondition's value after the run, in every state and model |
| VerifyTheorems.WpSound | backend/verify.py:75-118 | soundness for every program, postcondition and reading of the invariants: if the formula holds at the start and all appended conditions are valid, every run that ends satisfies the postcondition |
| VerifyTheorems.KeysMatter | backend/verify.py:53-74 | counterexample without the key condition: the generator returns a formula that holds, appends nothing, and the run violates the postcondition |
| VerifyTheorems.KeysMayComeRight | backend/verify.py:58-85 | the key condition is not necessary for whole programs: a substitution further in front can repair a wrong key |
| Completeness.WlpWhile | backend/interpret.py:112-115 | the weakest liberal precondition of a loop is its own fixed point: after a failing test the postcondition, after a passing one the same again behind the body |
| Completeness.WpComplete | backend/verify.py:75-118 | with the semantic invariants all conditions are valid and the formula holds in exactly the states whose ending runs meet the postcondition |
| Completeness.UncalledNamesDoNotMatter | backend/verify.py:97-99 | a formula that calls none of the invariants is read alike whatever the invariants are |
| Completeness.RelativelyComplete | backend/verify.py:75-118 | for every program with distinct loop texts such a reading of the invariant calls exists, without touching arithmetic or the postcondition |
| Termination.OneIteration | backend/generate_sketch.py:64-72 | one pass through the body of a counting loop makes its remaining iterations strictly fewer |
| Termination.CountingTerminates | backend/interpret.py:112-115 | programs of counting loops, nested to any depth, end from every state |
| Invariant.ContainingLoopVisitor.Visit | backend/invariant.py:113-129 | the visitor with its pushed and popped stack leaves the stack as it was and adds, for every loop, the loops around it |
| Invariant.FindLoopvarNesting | backend/invariant.py:92-106 | in whatever order the loops are walked, every loop variable is mapped to the lists around its loops, one appended to the other; when no two loops share a variable, to the variables of the loops around it |
| Invariant.InvariantGenerator.FindPreviousSiblingLoops | backend/invariant.py:169-194 | the result holds, without repetition, exactly the loops with the same parent that stand earlier in its block |
| Invariant.InvariantGenerator.GenerateInvariant | backend/invariant.py:214-268 | the object returned calls the parent's invariant only; its clauses are those of the earlier siblings, in the order found, and the loop's own at the end, each with the ranges and the outputs spelled out, also when loops share a variable |
| Invariant.InvariantGenerator.FindRanges | backend/invariant.py:226-264 | every entry of the dictionary: the loop itself its values so far, the variables around the current value, those of the loops inside the full range, which stays when such a variable is also its own or one around; in the outermost block no entry for variables around |
| Invariant.OwnRangesAre | backend/invariant.py:247-264 | the same of the ranges used in all results about clauses |
| Invariant.InvariantGenerator.AddClauseForSibling | backend/invariant.py:196-212 | the sibling's own range is set last and stays the full one |
| Invariant.OwnRangeAt | backend/invariant.py:247-264 | when no two loops share a variable no entry is replaced |
| Nest.BoundsFrom | backend/generate_sketch.py:53-101 | in a nest the finders report each loop's own initial value and bound |
| Invariant.InitIsLast | backend/generate_sketch.py:74-101 | for every program the initial value found is that of the last assignment to the variable that does not mention it, and nothing is found when there is none |
| Invariant.MaxIsLast | backend/generate_sketch.py:53-72 | the bound found is that of the last test on the variable, inner loops coming behind the loop around them |
| Invariant.InitFinder.Visit | backend/generate_sketch.py:74-101 | the visitor that keeps its last find in a field computes that value |
| Invariant.MaxFinder.Visit | backend/generate_sketch.py:53-72 | the visitor computes that bound, though it visits the loops inside a loop on another variable twice |
| Nest.NestTables | backend/invariant.py:92-139 | the generator's tables of a nest of any depth hold exactly its loops and loop variables and are closed under nesting |
| Nest.NestCurrentClause | backend/invariant.py:219-266 | the clause of loop k ranges over one value of each outer variable, the values of its own so far, and all values of the inner ones |
| Nest.NestSiblings | backend/invariant.py:175-183 | no loop of a perfect nest has a sibling |
| NestMeaning.IndexMentionsAll | backend/invariant.py:265-266 | with more than one value for each variable, an injective index mentions every loop variable, so no clause loses the output |
| NestMeaning.ReachedClauses | backend/invariant.py:234-239 | through the calls loop k reaches exactly the clauses of loops k to 0 |
| NestMeaning.LexicographicPrefix | backend/invariant.py:219-267 | at the head of loop k the clause boxes reached through the calls contain exactly the box points lexicographically before the current iteration |
| NestMeaning.NothingIsFree | backend/invariant.py:247-264 | no reached clause of a nest lacks a range, so that both readings of a missing range give the same boxes |
| NestMeaning.BoxesAreDisjoint | backend/invariant.py:247-266 | boxes of different loops share no point |
| NestMeaning.MeansPrefix | backend/invariant.py:214-268 | the generated invariant says "in bounds, and all earlier iterations are done", in both directions |
| NestCount.PrefixIsCounted | backend/invariant.py:219-267 | the boxes together have as many points as the mixed-radix number of the current iteration says, and these are the earlier iterations |
| NestCount.CountFollowsExecution | backend/interpret.py:112-122 | that number starts at 0, is kept on entering an inner loop, grows by 1 with each body execution, and carries when an inner loop has ended |
| NestTrace.BoxesCountTheRun | backend/interpret.py:109-122 | along every run of a perfect nest: whenever a loop test is about to be made, the array writes executed so far are exactly as many as the points of the boxes reached there, and the whole run makes as many writes as the box has points |
| NestVcs.PrefixOnEntry | backend/verify.py:110-114 | the prefix of loop k is the prefix of loop k + 1 at its first iteration |
| NestVcs.PrefixOnExit | backend/verify.py:106-108 | when loop k has ended, its prefix is the prefix of loop k - 1 one iteration further |
| NestVcs.PrefixAfterLeaf | backend/verify.py:110-114 | one write advances the innermost prefix by one iteration and spoils no earlier point |
| NestVcs.NestConditions | backend/verify.py:75-118 | the conditions of a nest of any depth in closed form: one exit and one step condition for each loop, in the order they are appended |
| NestVcs.InvariantsDischargeConditions | backend/verify.py:87-118 | for every perfect nest the generated invariants make the returned formula and all appended conditions valid for "every point of the box is computed" |
| NestRuns.InfosExist | backend/invariant.py:214-268 | tables and invariants as the generator builds them exist for every nest |
| NestRuns.NestComputes | backend/interpret.py:109-122 | every perfect nest, from every state that meets the assumptions, ends with every point of the output holding its value |
| NestRuns.AssumptionsCanBeMet | backend/generate_sketch.py:542-542 | the assumptions are met by a concrete nest in every state |
| Siblings.DirectParent | backend/invariant.py:113-129 | for every program, a loop's surrounding loops are those of the loop whose block it stands in, followed by that loop |
| Siblings.BlockMembersHaveParent | backend/invariant.py:113-129 | conversely, a loop standing in a loop's block has that loop as its innermost surrounding one |
| Siblings.SameBlockSameAround | backend/invariant.py:175-183 | two loops stand in the same block, the outermost one included, if and only if the same loops are around them |
| SiblingTables.NestingOfChild | backend/invariant.py:92-132 | the list of variables around a loop is that of its parent followed by the parent's variable, so the outermost comes first |
| Siblings.PreviousSiblingsAreEarlierLoops | backend/invariant.py:169-194 | for every program with distinct loop texts the previous siblings are exactly the loops standing earlier in the same block when that is the body of a loop; a loop of the outermost block has none, whatever stands before it |
| SiblingCoverage.SiblingClauseDescribes | backend/invariant.py:196-212 | for the arrays it lists, the clause of a sibling describes exactly the sibling's iterations within the current iteration of the loops around it, those of the loops inside it exactly when variables without a range are free, and none of any loop elsewhere |
| SiblingCoverage.PathClauseDescribes | backend/invariant.py:247-266 | for the arrays it lists, the clause of a loop describes exactly the iterations inside it that belong to its earlier iterations, within the current ones of the loops around |
| SiblingCoverage.DescribedIff | backend/invariant.py:196-268 | for any array, whatever its index mentions, and any two loops of any program: an iteration is described exactly when it belongs to an earlier iteration of a common loop whose clause lists the array, or to an earlier branch in view whose clause lists it |
| SiblingCoverage.ListedWhereItDiffers | backend/invariant.py:265-266 | an iteration from an earlier iteration of a common loop is described if and only if the array's index mentions the variable of the outermost such loop |
| SiblingCoverage.DescribedExactly | backend/invariant.py:214-268 | when the index mentions all loops around the write: described are exactly the executed iterations that belong to an earlier iteration of a common loop, or to a loop beside in the body of a common loop; only to one directly beside when a variable without a range rules a clause out |
| SiblingCoverage.AllDescribedIff | backend/invariant.py:214-268 | every executed iteration of a loop is described if and only if the loop lies in no earlier branch, or in one in the body of a common loop and, unless variables without a range are free, directly beside; for both readings |
| SiblingCoverage.SiblingsAreCovered | backend/invariant.py:214-268 | loops with the same loops around them: exactly the executed iterations of the loop itself and, inside a loop, of all its siblings; in the outermost block of none of them, though those standing before are executed |
| SiblingCoverage.InsideIsCovered | backend/invariant.py:247-266 | of the loops inside the loop itself exactly the executed iterations are described |
| SiblingCoverage.InnerLoopsOfSiblings | backend/invariant.py:196-212 | loops inside a sibling: described are exactly the executed iterations when variables without a range are free and the sibling is in the body of a loop, and otherwise only those of an earlier iteration of a loop around both |
| SiblingExamples.TopLevelLoopIsMissed | backend/invariant.py:177-177 | a program of two loops one after the other, for which the generator runs through, and an executed iteration of the first that the invariant of the second does not describe under either reading |
| SiblingExamples.InnerLoopIsMissed | backend/invariant.py:196-212 | a program with a loop inside an earlier sibling, for which the generator runs through, and an executed iteration of that loop that the invariant of the later sibling describes if and only if variables without a range are free |
| SiblingTables.SetupExists | backend/invariant.py:92-139 | every program with distinct loop texts and distinct loop variables has the tables these results speak of, whatever bounds were found |
| SiblingTables.GeneratedInfosExist | backend/invariant.py:214-268 | and the invariants the generator returns for them |
| Hoare.ConditionsMean | backend/verify.py:75-118 | for every program and any reading of its invariants as predicates on states, the generated formula and conditions are valid if and only if the predicates hold on entry, are kept by the bodies and imply what follows the loops |
| Hoare.TripleSound | backend/verify.py:75-118 | predicates with these properties hold on every run that ends |
| LoopOrder.ExecutedInChild | backend/interpret.py:109-122 | in front of an iteration of an inner loop there have been executed: what was in front of its parent's iteration, the branches before it, and its own earlier iterations |
| LoopOrder.ExecutedNext | backend/interpret.py:112-115 | one iteration further, what lies in the iteration that was current has been executed in addition, and nothing else |
| TreeTables.WorldExists | backend/invariant.py:92-139 | the tables of every loop tree exist, and the bounds the finders report are those of its loops |
| TreeVcs.Enter | backend/verify.py:110-114 | "every executed iteration is done" passes from a node to its first loop |
| TreeVcs.Between | backend/verify.py:106-108 | from the end of one loop of a block to the beginning of the next |
| TreeVcs.Leave | backend/verify.py:106-108 | and from the end of the last loop of a block to the next iteration of the loop around |
| TreeRuns.Step | backend/verify.py:110-114 | one write and increment in a leaf finish the current iteration and spoil none |
| TreeRuns.TreeConditions | backend/verify.py:75-118 | for loop trees of any shape this invariant satisfies all conditions for "every iteration of every leaf is done" |
| TreeRuns.TreeComputes | backend/interpret.py:109-122 | every loop tree of any shape, from every state that meets the assumptions, ends with every output cell of every leaf holding its value |
| TreeInvariants.MeansIdeal | backend/invariant.py:214-268 | when no loop is missed, the generated invariant of each loop says exactly "in bounds, and every executed iteration is done" |
| TreeInvariants.MissNothing | backend/invariant.py:196-268 | no loop of any tree is missed when variables without a range are free, and none otherwise when in every block only the last loop holds further loops |
| TreeInvariants.TreeInvariantsDischarge | backend/verify.py:87-118 | for every loop tree in which no loop is missed, under either reading, the generated invariants make the returned formula and all appended conditions valid |
| TreeInvariants.TreeDischarge | backend/generate_sketch.py:204-214 | tables and invariants exist, and discharge the conditions, for every loop tree when variables without a range are free, and otherwise for every tree in whose blocks only the last loop holds further loops |
| TreeNecessity.OtherwiseSomeFails | backend/verify.py:106-108 | in every other tree, and for every postcondition, some generated condition fails when a variable without a range rules a clause out |
| TreeNecessity.DischargeIff | backend/verify.py:75-118 | the conditions of a loop tree are valid if and only if variables without a range are free or the tree has that shape |
| TreeExample.PairIsWellFormed | backend/invariant.py:196-212 | a loop around two loops that write different arrays is such a tree |
| TreeExample.PairAssumed | backend/generate_sketch.py:542-542 | and meets the assumptions on bounds and indices in every state |
| TreeExample.BranchedDependsOnReading | backend/invariant.py:196-212 | a concrete program with a loop inside an earlier sibling whose conditions are valid if and only if variables without a range are free |
| GenerateSketch.WpShapes | backend/verify.py:75-118 | every condition is `H -> C` or `H -> (true -> C)`, with one call in front and one call behind; the returned formula has a hypothesis if and only if the program has a loop |
| GenerateSketch.RHSInvariantReplacer.Visit | backend/generate_sketch.py:12-34 | the visitor with its flag computes the rewriting function, flag included; a call met with the flag set keeps its arguments and gets, behind them, the point variable of each loop variable in their order, and the postcondition stays |
| GenerateSketch.FinalCallGetsPoints | backend/generate_sketch.py:22-34 | in a generated condition the final call gets these arguments and nothing else changes |
| GenerateSketch.RewriteCond | backend/generate_sketch.py:22-34 | on the generated shapes the final consequent is rewritten and nothing else |
| GenerateSketch.PointwiseImplication | backend/generate_sketch.py:29-34 | an implication whose consequent is an invariant is valid if and only if it is with the pointwise invariant at a point named by unused variables |
| GenerateSketch.WpRewritable | backend/generate_sketch.py:204-211 | every generated condition ends in the postcondition or in an invariant whose arguments mention no point variable |
| GenerateSketch.PointwiseReplacementIsEquivalent | backend/generate_sketch.py:204-211 | for every program the set of conditions is valid if and only if the rewritten set is |
| AssertionToSketch.SimplifyPreservesMeaning | backend/assertion_to_sketch.py:6-25 | simplification keeps the value of every formula in every state and model |
| AssertionToSketch.EmitPreservesMeaning | backend/assertion_to_sketch.py:61-87 | emitted guarded asserts are violated nowhere in a state if and only if the formula holds there |
| AssertionToSketch.ConditionsAreEmittable | backend/assertion_to_sketch.py:78-87 | after simplification every generated condition becomes one assert under one guard, with no implication left in either |
| AssertionToSketch.PreIsEmittable | backend/assertion_to_sketch.py:78-87 | the returned formula becomes an assert if and only if it has a hypothesis; otherwise nothing is asserted |
| AssertionToSketch.RewriteStaysEmittable | backend/generate_sketch.py:204-214 | the pointwise pass leaves the shapes the emitter can handle |
| HoistedArrays.ToSketch.VisitAugArrayVarNode | backend/assertion_to_sketch.py:89-94 | an augmented array is replaced by a name that holds its value once the declarations have run; the name table and the declarations stay consistent |
| HoistedArrays.ToSketch.DeclareCopy | backend/assertion_to_sketch.py:43-47 | the copy is declared before its cell is set, after everything it uses, and then denotes the augmented array |
| HoistedArrays.ToSketch.ToStr | backend/assertion_to_sketch.py:36-41 | each name is declared once and before use, no augmented array is left, the asserts stand for the side conditions in order and then for the returned formula, and after the declarations they fail nowhere if and only if all formulas hold |
| Texts.TextsAreDistinct | backend/assertion_to_sketch.py:44-45 | expressions with identifiers as names, augmented arrays included, are determined by their printed text, which is what the name table is keyed on |
| Texts.Unique | backend/stencil_ir.py:40-54 | unique readability: an expression in front of a closing text is determined together with the text behind it |
| Pipeline.WpClean | backend/verify.py:41-118 | generated formulas mention only the program's and the calls' variables and use arrays as arrays, through every substitution |
| Pipeline.EnvIsSuitable | backend/assertion_to_sketch.py:89-94 | fresh names are all the emitter needs: in well-named formulas the name table never confuses two arrays |
| Pipeline.Generate | backend/generate_sketch.py:204-214 | the emitted program fails in no admissible state if and only if all conditions are valid; if it fails nowhere, every ending run meets the postcondition |
| Pipeline.ValidConditionsSuffice | backend/generate_sketch.py:204-214 | a valid set of conditions certifies every run from every admissible state |
| Z3Arrays.SelectDenotes | backend/assertion_to_z3.py:65-69 | nested selects denote reading the curried array at the whole index vector |
| Z3Arrays.NesterDenotes | backend/assertion_to_z3.py:87-92 | nested stores denote updating the curried array at the whole index vector |
| Z3Arrays.NesterReads | backend/assertion_to_z3.py:79-92 | for vectors of any length, reading the update gives the new value at the vector and the old value everywhere else |
| Z3Arrays.ReadSimulated | backend/assertion_to_z3.py:65-79 | when the coordinates re-linearise to the flat location, the encoded read is the flat read |
| Z3Arrays.AssignmentSimulated | backend/assertion_to_z3.py:94-106 | under an injective index map the encoded update simulates the interpreter's array assignment |
| Z3Arrays.SimulationIffInjective | backend/assertion_to_z3.py:87-92 | every update is simulated if and only if the index map is injective |
| Resugar.Resugar | backend/backend_halide.py:109-136 | the first search returns, for the lexicographically smallest shift between -2 and 1 that turns the index function into the location, one index for each loop variable, in order or reversed, and nothing if there is no such shift; the returned coordinates re-linearise to the location for all loop variables and sizes |
| Resugar.CandidatesAscend | backend/backend_halide.py:114-116 | the product lists the shifts in lexicographic order |
| Resugar.FoundIndicesRelinearise | backend/backend_halide.py:121-136 | so does every index vector of a candidate that matches |
| Resugar.FoundIffInReach | backend/backend_halide.py:114-126 | the search succeeds if and only if the location lies at offsets from -2 to 1 in every loop variable |
| Resugar.FoundRelinearises | backend/backend_halide.py:121-136 | the index function at the shifted variables has the location's value, for all loop variables and sizes |
| Resugar.ShiftIsUnique | backend/backend_halide.py:114-126 | the shift is unique when for some sizes every stride exceeds three times the sum of the smaller ones |
| Resugar.UniqueIffNothingCancels | backend/backend_halide.py:114-126 | shifts are unique if and only if no factors from -3 to 3, not all zero, cancel the strides |
| Parser.MyAction | backend/parse_ir.py:46-56 | rewriting the token list until three tokens are left computes the left fold |
| Parser.NatRoundTrip | backend/parse_ir.py:13-14 | reading the decimal digits of a number gives the number |
| Parser.ParsePrint | backend/parse_ir.py:21-66 | parsing the printed text of an expression gives the expression back |
| Parser.PrintingIsInjective | backend/stencil_ir.py:40-54 | different expressions print differently |
| Parser.PrecedenceIsUnique | backend/parse_ir.py:59-61 | the order of operands and operators together with precedence and left associativity determines the syntax tree |
| Parser.ChainsFollowPrecedence | backend/parse_ir.py:46-61 | an unparenthesised chain, with any spacing in front, around the operators and behind, parses to the tree that keeps its order and respects precedence |
| Parser.SpacedTextsParse | backend/parse_ir.py:21-66 | so does every chain of names, numbers, accesses and parentheses, nested to any depth, with any whitespace between two tokens, inside parentheses and brackets too |
| Parser.EveryChainHasItsTree | backend/parse_ir.py:59-61 | every chain has such a tree |
| Symbolic.SymbolicInterpreter.Visit | backend/interpret.py:84-122 | the interpreter that updates its dictionary in place computes the symbolic run and records its loop tests |
| Symbolic.RaisesIff | backend/interpret.py:84-107 | evaluation raises if and only if some visited part is a comparison other than `<`, an array where a number is needed, something else where an array is needed, or a read at something that is not a number |
| Symbolic.SymbolicAdequacy | backend/interpret.py:84-122 | whenever the symbolic run does not raise, it ends if and only if the concrete run of every valuation does, with the valued final state and the same loop tests |
| Symbolic.SteeredNeverRaises | backend/interpret.py:90-115 | programs whose loop tests and array indices do not depend on array contents never raise |
| Symbolic.OneRunServesAllArrays | backend/interpret.py:29-45 | for such programs inputs that differ in array contents alone run through the same tests, and one symbolic result gives every concrete one |
| Symbolic.FoldIsSimplifier | backend/interpret.py:106-107 | simplifiers with the assumed properties exist |
| Traversal.StackFrameVector.Push | frontend/include/StackFrameVector.h:381-401 | a push replaces the current frame by the new element and leaves an empty frame, whatever junk lies above the stack |
| Traversal.StackFrameVector.Pop | frontend/include/StackFrameVector.h:431-439 | popping removes exactly the top element and returns it |
| Traversal.SgTreeTraversal.PerformTraversal | frontend/include/AstProcessing.h:729-826 | for every tree, null children and skipped subtrees included, the stack gains exactly the recursively defined attribute with the postorder bit and is unchanged without it; the calls are made in the recursive order |
| Traversal.SgTreeTraversal.TraversalResult | frontend/include/AstProcessing.h:829-849 | the only element of the stack, or the default value when there is not exactly one |
| Traversal.SgTreeTraversal.Traverse | frontend/include/AstProcessing.h:705-725 | returns the recursively defined attribute even if an aborted traversal left junk behind |
| Traversal.CallsFollowTheOrder | frontend/include/AstProcessing.h:743-818 | inherited attributes are evaluated in preorder and synthesized ones in postorder, each when its bit is set, over the nodes outside skipped subtrees |
| Traversal.EveryPlaceInherits | frontend/include/AstProcessing.h:743-818 | every evaluation, of a node or of a default for a null child or a skipped subtree, inherits what was handed down from the root to its place, and the results arrive in the order of the children |
| CombinedTraversal.FusedIsSeparate | frontend/include/AstCombinedProcessingImpl.h:226-330 | for every tree component i of the fused result is what traversal i computes alone |
| CombinedTraversal.SgCombinedTreeTraversal.EvaluateInheritedAttribute | frontend/include/AstCombinedProcessingImpl.h:228-255 | the two iterators evaluate each traversal on its own inherited value |
| CombinedTraversal.SgCombinedTreeTraversal.EvaluateSynthesizedAttribute | frontend/include/AstCombinedProcessingImpl.h:260-311 | one overwritten buffer hands every traversal the column of its children's attributes |
| CombinedTraversal.SgCombinedTreeTraversal.DefaultSynthesizedAttribute | frontend/include/AstCombinedProcessingImpl.h:315-330 | each traversal's default on its own inherited value |
| CombinedTraversal.SgCombinedTreeTraversal.Traverse | frontend/include/AstCombinedProcessingImpl.h:332-346 | the stack machine on fused attributes returns the list of the separate results |
| CombinedTraversal.TraverseInParallel | frontend/include/AstSharedMemoryParallelProcessingImpl.h:131-184 | run one chunk after the other, the flattened result over t chunks lists the separate results of the first t * floor(N / t) traversals |
| CombinedTraversal.CompleteIffDivides | frontend/include/AstSharedMemoryParallelProcessingImpl.h:137-149 | these are all results if and only if t divides N; otherwise exactly N mod t are lost |

## Left out

- VerifyTheorems.WpSound: for the generator as written it asks that no assigned variable is pending in a key (`KeySafe`), without which it is false (`VerifyTheorems.KeysMatter`); with keys substituted it holds for every program. For a single assignment the condition is proved exact (`Verify.ReplaceMeetsItsPromise`); for whole programs it is sufficient only, because a substitution further in front can make a wrong key right again (`VerifyTheorems.KeysMayComeRight`).
- VerifyTheorems.AssignExact: as written under the same key condition, exact for a single assignment by `Verify.ReplaceMeetsItsPromise`.
- VerifyTheorems.LoopFreeExact: the same key condition.
- Completeness.WpComplete: the same key condition.
- Completeness.RelativelyComplete: the same key condition.
- Pipeline.ValidConditionsSuffice: the same key condition.
- Pipeline.Generate: its correctness clause has the same key condition; programs with a loop only, since a loop-free program prints no assert; random names are assumed fresh; no function is called "assert.." or "true", which would confuse the emitter's textual tests.
- NestVcs.InvariantsDischargeConditions: perfect nests with one array write and one output; other shapes are the subject of `TreeInvariants.TreeInvariantsDischarge`.
- TreeInvariants.TreeInvariantsDischarge: each innermost loop makes one array write, with an index that reads no array and is injective on its iterations; different loops write different arrays, loop texts and variables are distinct, bounds do not change and leave more than one iteration, and right-hand sides read no output. Programs with several loops in the outermost block are described by `SiblingCoverage.AllDescribedIff`, without a result about their conditions.
- SiblingCoverage.DescribedIff: only the loop in question may write the array when variables without a range are free, and when the loop stands around the head in question; a clause could otherwise speak about the writes of another loop.
- SiblingCoverage.SiblingClauseDescribes: the same condition on arrays.
- Invariant.FindLoopvarNesting: the order of the dictionary's keys is any order.
- Interpret.Interpreter.Visit: assigning a whole array to a variable copies it, while the source makes the two names share one list.
- Symbolic.SymbolicInterpreter.Visit: assigning a whole array to a variable raises here, while the source makes the two names share one list.
- Symbolic.SymbolicAdequacy: runs that assign a whole array therefore count as raising.
- Resugar.Resugar: the second search (backend/backend_halide.py:160-187), which is interleaved and may answer before a later candidate of the first one; `need_to_rev` is taken as a given flag.
- Resugar.ShiftIsUnique: its condition on strides is sufficient only; the exact one is `Resugar.UniqueIffNothingCancels`.
- CombinedTraversal.TraverseInParallel: threads run one after the other; they share no state, and the bodies of `synchronize()` and `signalFinish()` are not part of this model, nor are the visit counters that trigger them.
- Conditionals: `processIfExp` (backend/verify.py:120-145) raises at once and the IR has no such node.
- A statement that is a bare operation, call or formula: `get` falls through and returns nothing; the parser produces no such statement.
- Augmented arrays with several keys: the generator creates only one-key dictionaries.
- Indices that read arrays, in the table of output dependences (backend/invariant.py:77-85), where the visitor forgets the outer array after an inner read.
- The text of index terms in Z3 input: offsets of reads are turned into prefix form, those of updates are not.
- Sympy: any simplifier that keeps meanings, with linear index functions compared by their coefficients. Pyparsing: the grammar is a hand-written recogniser.
- The statement grammar of the parser, comments, and numbers with a decimal point: the printer's statement syntax is a different one, and IR numbers here are integers.
- The retry loop with random scalars in `interpret`, `outputs_changed`, and Python's negative list indices.
- `Guesser`, `process_sketch_results.py`, the command line, templates, metadata and logging: no semantic contract.
- `generate_z3.py`: the same passes in another arrangement.
- Truncation of the SHA-224 keys: keys are taken to be injective on loop texts.
- The other headers of the front end: declarations and tables.
