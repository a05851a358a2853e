# From a proposed loop to verified hardware

The repository refines an abstract statement such as `product = a * b` into a cycle-accurate
circuit. A proposer suggests a loop; an obligation kernel checks it; a scheduler turns it into an
IDLE/BUSY/DONE machine behind a start/done handshake; a cycle simulator and a Verilog compiler
give the result its meaning; an engine searches for the chain of rule applications. This project
models that path and proves what it promises.

The files follow the path from the bottom up.

| file | models |
|---|---|
| `Expressions.dfy` | values with X, environments, evaluation, substitution, assignments, IF chains, width masks |
| `Grammar.dfy` | tokens and the grammar as one pure parser, with its splicing and shifting lemmas |
| `Interpreter.dfy`, `Operators.dfy` | the interpreter that parses while it evaluates, a class over a cursor; what each operator means, in values and in texts |
| `NativeExpressions.dfy` | the parser that fills a node pool once, and the evaluator over slots |
| `Domain.dfy` | the input box: nested product, sampled battery, odometer, saturating case count |
| `Kernel.dfy`, `NativeKernel.dfy`, `Verdicts.dfy` | the obligation kernel and its in-place mirror; what a verdict says, flags and counterexample included |
| `Simulator.dfy`, `NativeSimulator.dfy`, `Cycles.dfy` | the cycle simulator and its slot-based mirror; what one cycle of a run leaves, said of its stimulus |
| `Handshake.dfy`, `Runs.dfy`, `Served.dfy` | the scheduled loop as a circuit, whole runs, the end-to-end theorem; a start served, said of the stimulus |
| `UntestedEntry.dfy` | the run of a circuit whose loop should not have been entered |
| `Composition.dfy`, `Alternatives.dfy`, `Winners.dfy` | ordered steps, branches and guarded actions composed into next states; which writer wins |
| `Splicing.dfy`, `Scheduling.dfy` | text splicing, chain splitting, the texts the scheduler emits |
| `TornValues.dfy` | which chains of expression texts come apart as they were joined |
| `ComposedTexts.dfy` | the composition of steps, branches and actions carried out on texts |
| `Verilog.dfy`, `VerilogTokens.dfy`, `Translation.dfy`, `TruthWords.dfy` | Verilog expressions and the translator into them |
| `Sections.dfy`, `Printing.dfy` | the compiler's searches over printed lines, and the sections the bridge prints |
| `ReadBack.dfy`, `ReadSizes.dfy`, `Printed.dfy` | what the compiler reads back: assignments, resets, next states; names, widths, depths; the reset level of the text and of the simulator |
| `Refinement.dfy`, `Rules.dfy` | LoopIntroduction, ScheduleHandshakeFSM, Initialization and the simulator's digest; what each leaves of a spec |
| `Engine.dfy`, `VerifiedChain.dfy` | the backtracking engine, and the engine running the verified rules |
| `Multiplier.dfy`, `DerivedMultiplier.dfy` | the shift-add multiplier, as a loop and taken through the whole chain |

Evaluation is a pure function of an expression and an environment; everything the source does by
updating a cursor, a dictionary, an array or a field is a method or a class here, proved against
such functions. Expressions are modelled from tokens on, the printed sections from lines of
characters on. Numbers are exact naturals; every
arithmetic result is masked to 32 bits where the source masks it.

## What the proofs found

Places where the code does something other than its own comments or its sibling code suggest; the
code is followed, and a lemma gives the condition.

- The circuit enters BUSY without testing the guard, so it always takes at least one step, while
  the kernel may accept a loop that never iterates; then done rises over a failing postcondition
  (`UntestedEntry.UntestedEntryBreaks`). The two run equally long exactly when the guard holds at
  entry (`Handshake.EntryGuardDecides`), and in any case an accepted start delivers the
  postcondition exactly when it holds where the guard first fails after a step
  (`Runs.StartDeliversIff`).
- The interpreter evaluates both branches of an IF and every index; the native evaluator skips the
  branch not taken, both branches under an X condition, and the index under a base without a value
  (`NativeExpressions.LazyBranchDiffers` has all three shapes). The outcomes differ exactly when
  nothing reached raises and something skipped would (`NativeExpressions.OutcomesDifferIff`); they
  agree wherever no indexed name is bound to a defined scalar (`NativeExpressions.ScalarFreeAgree`).
- Guards of ordered steps read the state before the cycle, not the values computed by earlier
  steps (`Composition.GuardsReadTheOldState`). The composed steps agree with the program step by
  step exactly when each guard either decides the same before the cycle and where it stands, or
  guards an assignment of the value already held (`Composition.GuardsMayWaitIff`); guards that read
  no assigned register are one such case (`Composition.GuardsMayWait`).
- Branches of an alternation have priority per variable, not per branch
  (`Alternatives.LaterBranchMixes`): the first true branch is executed as a whole at a left-hand
  side exactly when it assigns it, or the later branch that decides it leaves it its old value
  (`Alternatives.FirstTrueBranchIff`). With exclusive guards that is always so.
- Two indexed left-hand sides over one memory can name the same cell; an idle writer then writes
  the old value back over the store (`Alternatives.AliasedHoldUndoesWrite`). A store survives
  exactly when the last update naming its cell writes the same value
  (`Alternatives.StoreSurvivesIff`); with one indexed left-hand side per memory it always does
  (`Alternatives.CellsLand`).
- A conditional in a THEN position is cut at the wrong ELSE by the scheduler's chain parser
  (`Scheduling.NestedValueIsTorn`, `Scheduling.TornValueFails`). The parser counts round
  parentheses only, so a conditional inside index brackets, as in `x[IF c THEN 0 ELSE 1]`, is torn
  as well (`TornValues.ConditionalValuesAreTorn`). A chain comes apart as it was joined exactly when
  its guards close their parentheses and have no THEN or ELSE outside them, its values close theirs
  and have no ELSE outside them, and its default is not itself cut (`Scheduling.JoinSplitsIff`);
  for texts of expressions, exactly when no guard and no value has an IF outside round parentheses
  and the default does not start with one (`TornValues.ExpressionsComeApartIff`).
- A conditional nested bare in a THEN position also leaks its keyword through the translator
  (`Translation.CleanIffFlat`). In particular the control chain compiles
  exactly when the guard one step ahead is IF-free (`Translation.ControlChainClean`), which fails
  when the guard reads a register whose body is conditional (`Translation.SubstUnkeyed`).
- A combinational action without updates opens an empty `CombinationalLogic` section, and the
  compiler's search for it runs on into `UpdatePipeline`: resets and next states are read as
  combinational assignments as well (`ReadBack.EmptySectionReadsPipeline`). The combinational list
  comes back exactly when there is no such section, it is not empty, or the pipeline drives nothing
  (`ReadBack.CombinationalReadsBackIff`).
- A module title ending in `VARIABLES` opens the declarations too early, and words of the header are
  read as declared names; the names come back exactly when the title does not end so
  (`ReadSizes.NamesReadBackIff`).
- `TRUE` and `FALSE` are passed through to Verilog as identifiers: on flat form the translation
  means the original expression exactly when neither occurs (`TruthWords.TranslationMeansIff`).

## Model

| member | source | states |
|---|---|---|
| Expressions.SubstIsUpdate | pipeline/refinement/rules/schedule_handshake_fsm.py:54-65 | evaluating a substituted expression in the old state is evaluating the original in the state where every substituted name already holds its new value |
| Expressions.EvalSees | pipeline/cocotb/spec_sim.py:255-262 | an expression's value depends on the environment only through the names it reads |
| Expressions.LazyRaisesImpliesRaises | core/src/expr.cpp:240-328 | wherever the branch-lazy evaluator rejects a scalar index, the eager interpreter rejects it too |
| Expressions.FoldTakesFirst | pipeline/refinement/bridge.py:263-287 | a nested IF has the value of its first true clause, else of its default, when no earlier guard is X |
| Expressions.LandLookup | pipeline/refinement/obligations.py:249-255 | a simultaneous step gives each target its right-hand side read before the step and leaves other names alone |
| Expressions.SequentialLookup | pipeline/refinement/obligations.py:240-246 | initial assignments that read no target may as well land together |
| Expressions.SafeIsDefined | pipeline/cocotb/spec_sim.py:127-259 | without memory reads and with constant positive divisors an expression is never X over defined names |
| Grammar.StrictIsTolerant | pipeline/cocotb/spec_sim.py:144-252 | well-bracketed text is read the same by the tolerant parser that both evaluators share |
| Grammar.ParseExtends | pipeline/cocotb/spec_sim.py:144-252 | text behind a piece does not change how it is read if it starts with a token the piece's level cannot take |
| Grammar.ParseShifts | pipeline/cocotb/spec_sim.py:144-252 | text in front of a piece only moves it |
| Interpreter.Interp.Expr | pipeline/cocotb/spec_sim.py:144-157 | the cursor ends where the pure parser ends whatever the values are, and the value is that of the parsed expression, or the exception is the one it raises |
| Interpreter.Interp.OrLevel | pipeline/cocotb/spec_sim.py:159-165 | the same for a chain of disjunctions, both sides evaluated |
| Interpreter.Interp.AndLevel | pipeline/cocotb/spec_sim.py:167-173 | the same for a chain of conjunctions |
| Interpreter.Interp.CmpLevel | pipeline/cocotb/spec_sim.py:175-187 | the same for at most one comparison |
| Interpreter.Interp.AddLevel | pipeline/cocotb/spec_sim.py:189-200 | the same for sums, each result masked to 32 bits |
| Interpreter.Interp.MulLevel | pipeline/cocotb/spec_sim.py:202-217 | the same for products, division and remainder by zero giving X |
| Interpreter.Interp.Unary | pipeline/cocotb/spec_sim.py:219-229 | the same for negation and complement |
| Interpreter.Interp.Primary | pipeline/cocotb/spec_sim.py:231-252 | the same for literals, names, indexing and parentheses |
| Interpreter.EvalText | pipeline/cocotb/spec_sim.py:255-262 | a text the parser can read gives the value of what was read, or TypeError exactly where that expression is rejected; a text it runs out of raises one of the two exceptions |
| Operators.AtMostLaw | pipeline/cocotb/spec_sim.py:175-187 | `a <= b` is 1 exactly when some natural added to `a` gives `b`, `a < b` when one added to `a + 1` does, `a = b` when both reach each other |
| Operators.OrderLaws | pipeline/cocotb/spec_sim.py:175-187 | exactly one of `<`, `=`, `>` is 1; `<=`, `>=`, `/=` are the negations of `>`, `<`, `=`; swapping the operands turns `>` into `<` |
| Operators.AdditionLaws | pipeline/cocotb/spec_sim.py:189-200 | below 2^32 a sum is exact but for at most one 2^32, subtraction undoes addition, and a difference below zero is its two's complement |
| Operators.ProductLaw | pipeline/cocotb/spec_sim.py:202-217 | a product is the exact one less a multiple of 2^32 |
| Operators.DivisionLaws | pipeline/cocotb/spec_sim.py:202-217 | quotient and remainder recompose the dividend, the remainder below the divisor; both are X for the divisor 0 |
| Operators.TruthTables | pipeline/cocotb/spec_sim.py:159-173 | the connectives as truth tables over zero and non-zero |
| Operators.ConditionLaws | pipeline/cocotb/spec_sim.py:144-157 | IF has its THEN for a non-zero condition, its ELSE for 0, and X for X |
| Operators.IndexLaws | pipeline/cocotb/spec_sim.py:231-252 | an index reads its cell, and X outside the memory or under X |
| Operators.LiteralText | pipeline/cocotb/spec_sim.py:231-252 | a text of one literal gives its number, `TRUE` gives 1 and `FALSE` 0 |
| Operators.OperatorText | pipeline/cocotb/spec_sim.py:159-217 | two names around an operator, in any of its spellings, give what the operator makes of their values |
| Operators.AtMostText | pipeline/cocotb/spec_sim.py:255-262 | the text `x <= y` gives 1 exactly when the value of `y` is reached from that of `x` |
| Operators.TwoOperators | pipeline/cocotb/spec_sim.py:159-217 | of two operators in a text the tighter takes its operands first, equally tight ones from the left |
| NativeExpressions.Parser.Expr | core/src/expr.cpp:109-126 | the node index returned denotes the expression the pure parser reads, nodes and symbols only grow, and it fails exactly when the tokens run out |
| NativeExpressions.Parser.Level | core/src/expr.cpp:147-192 | the same for one precedence level of the node-pool parser |
| NativeExpressions.CompileExpr | core/src/expr.cpp:332-338 | compilation fails on exactly the texts the interpreter runs out of, and otherwise means what the interpreter reads |
| NativeExpressions.EvalNodeIsEval | core/src/expr.cpp:240-328 | the pool evaluates over slots to the value of the expression it denotes, or raises as lazy reading does |
| NativeExpressions.CompiledIsInterpreted | core/src/expr.cpp:332-342 | parsing once and evaluating later gives the interpreter's value wherever the interpreter gives one, and raises only where it does |
| NativeExpressions.Wrap64IsWrap | core/src/expr.cpp:240-328 | masking an unsigned 64-bit result to 32 bits is masking the exact result |
| Expressions.RaisesIsReachedOrSkipped | core/src/expr.cpp:240-328 | the interpreter rejects exactly what the native evaluator reaches and rejects, or skips and would reject |
| NativeExpressions.OutcomesDifferIff | core/src/expr.cpp:240-328 | a compiled text and the interpreter part exactly where nothing reached lazily is rejected and something skipped would be |
| NativeExpressions.ScalarFreeAgree | core/src/expr.cpp:240-328 | they agree, with a value, wherever no indexed name is bound to a defined scalar |
| NativeExpressions.LazyBranchDiffers | core/src/expr.cpp:240-328 | the three shapes of expression on which only the interpreter raises |
| Domain.ProductHas | pipeline/refinement/obligations.py:228-233 | the materialised product holds exactly the rows inside the box |
| Domain.ProductLength | pipeline/refinement/obligations.py:222-233 | it has as many rows as the product of the sizes |
| Domain.ProductDistinct | pipeline/refinement/obligations.py:228-233 | no row occurs twice |
| Domain.ProductTurns | core/src/obligations.cpp:243-266 | the odometer's successor walks the materialised product row by row and stops at its end |
| Domain.ReadingIsPosition | core/src/obligations.cpp:243-266 | the mixed-radix reading of a row is its position in the product |
| Domain.BuildProduct | pipeline/refinement/obligations.py:228-233 | the list-growing loop builds that product |
| Domain.BatteryInBox | pipeline/refinement/obligations.py:174-219 | every sampled row is inside the box |
| Domain.BatteryIff | pipeline/refinement/obligations.py:174-219 | a row is sampled exactly when every coordinate is 0, 1 or the maximum, or it is one of the 256 rows of the spread |
| Domain.DedupInOrder | pipeline/refinement/obligations.py:210-219 | of two kept rows the one listed first also occurs first |
| Domain.SampledBattery | pipeline/refinement/obligations.py:174-219 | the loops build that battery: edge combinations, then the spread, duplicates dropped |
| Domain.InputDomain | pipeline/refinement/obligations.py:174-219 | at most the threshold: the whole box, marked exhaustive; otherwise the battery, marked sampled |
| Domain.TotalCases | core/src/obligations.cpp:87-96 | the saturating 64-bit count is within the threshold exactly when the true product is, and equals it then |
| Domain.Odometer.Turn | core/src/obligations.cpp:243-266 | one turn of the in-place odometer moves to the successor row, or reports the end |
| Kernel.ApplyInit | pipeline/refinement/obligations.py:240-246 | initial assignments are carried out in order, each seeing the ones before |
| Kernel.StepBody | pipeline/refinement/obligations.py:249-255 | a body step evaluates every right-hand side in the state before the step |
| Kernel.CheckO1 | pipeline/refinement/obligations.py:262-273 | the first input whose entry state breaks the invariant, or none |
| Kernel.WalkO2 | pipeline/refinement/obligations.py:276-326 | what the second sweep reports for one input: entry invariant, preservation, strict decrease, exit within the bound, in that order |
| Kernel.WalkO3 | pipeline/refinement/obligations.py:329-349 | what the third sweep reports for one input at the state where its bounded walk stops |
| Kernel.DischargeLoopObligations | pipeline/refinement/obligations.py:365-451 | the verdict of the three sweeps in order, the first failing one ending the discharge |
| Kernel.SweepsMeanCorrect | pipeline/refinement/obligations.py:262-349 | the three sweeps are silent about an input exactly when its loop keeps the invariant at every reached state, strictly decreases the variant, exits within the bound and establishes the postcondition |
| Kernel.VerdictMeaning | pipeline/refinement/obligations.py:417-451 | `ok` holds exactly when that is so for every enumerated input |
| Kernel.ExhaustiveIsProof | pipeline/refinement/obligations.py:174-219 | in exhaustive mode `ok` is a statement about every input in the box, and the box is what was counted |
| Kernel.CounterExampleIsFirst | pipeline/refinement/obligations.py:417-451 | a negative verdict names an enumerated incorrect input, and no earlier one fails the same sweep |
| Verdicts.OkMeans | pipeline/refinement/obligations.py:365-451 | `ok` holds exactly when on every enumerated input some number of steps within the bound leaves the guard, the invariant true and the variant falling in every step, the postcondition true of the values mapped there |
| Verdicts.FailureExplains | pipeline/refinement/obligations.py:262-349 | a failing sweep's detail is true of the state shown: the invariant false there after init; or guard and invariant true in a reached state and the invariant false, or the variant not smaller, in its simultaneous successor; or the guard still true after exactly the bound; or the postcondition false of the values mapped where the walk stops |
| Verdicts.NegativeExplains | pipeline/refinement/obligations.py:417-451 | every negative verdict carries such a counterexample of an enumerated input; exactly the sweeps before the failing one are flagged, and the second sweep never reports the entry |
| Verdicts.VerdictCounts | pipeline/refinement/obligations.py:417-451 | the verdict counts the enumerated rows, is exhaustive exactly when the box is within the threshold, and is positive exactly when there is no counterexample |
| Kernel.DischargeNeverRaises | pipeline/refinement/obligations.py:240-255 | of a derivation that indexes no name the kernel binds, nothing is rejected in any state a sweep reaches |
| Kernel.VariantBoundsRuns | pipeline/refinement/obligations.py:276-326 | a correct loop iterates at most as often as its variant is large at entry |
| NativeKernel.CompileLoop | core/src/obligations.cpp:39-79 | compilation succeeds exactly on readable requests and means the derivation the reference kernel reads |
| NativeKernel.Walker.LoadCase | core/src/obligations.cpp:178-194 | the slots and presence flags mirror the reference entry state |
| NativeKernel.Walker.StepBody | core/src/obligations.cpp:196-203 | the in-place step through a scratch buffer is the simultaneous step |
| NativeKernel.Walker.CaseO2 | core/src/obligations.cpp:286-338 | the in-place walk with a saved pre-state reports what the reference reports |
| NativeKernel.Walker.CaseO3 | core/src/obligations.cpp:340-372 | likewise for the exit obligation |
| NativeKernel.Walker.ForEachTurned | core/src/obligations.cpp:243-266 | sweeping by odometer is sweeping the materialised product |
| NativeKernel.NativeDischarge | core/src/obligations.cpp:383-428 | same verdict, mode, case count, flags and counterexample as the reference kernel |
| Simulator.SpecSimulator.RecomputeComb | pipeline/cocotb/spec_sim.py:325-339 | stopping early after an unchanged sweep is the same as all `len + 1` sweeps |
| Simulator.SpecSimulator.Commit | pipeline/cocotb/spec_sim.py:347-382 | registers, then cells, every right-hand side read before the commit |
| Simulator.SpecSimulator.Step | pipeline/cocotb/spec_sim.py:347-382 | one edge: drive, settle, commit or reset, settle |
| Simulator.SpecSimulator.Run | pipeline/cocotb/spec_sim.py:392-424 | the reset pulse, then one edge and one row of defined outputs per vector |
| Simulator.SettleSettles | pipeline/cocotb/spec_sim.py:325-339 | acyclic definitions end with every signal equal to the masked value of its own definition, and nothing else moved |
| Simulator.SettleOrderIndependent | pipeline/cocotb/spec_sim.py:325-339 | neither the order of the definitions nor the previous combinational values matter |
| Simulator.LandRegsLookup | pipeline/cocotb/spec_sim.py:347-382 | a register takes the masked value of its right-hand side in the old state, the others keep theirs |
| Cycles.ResetLevel | pipeline/cocotb/spec_sim.py:384-424 | in every run an active-high design resets on a vector that drives the port to a value other than 0 and steps on 0, X or silence, an active-low design resets on 0 only: a reset leaves the registers at masked reset values, a step at masked next values, both read in the state with the inputs driven and the outputs settled |
| Cycles.PulseFirst | pipeline/cocotb/spec_sim.py:392-414 | before the first vector there is one reset and one normal step, every input the stimulus mentions held at 0 |
| Cycles.RowShows | pipeline/cocotb/spec_sim.py:415-424 | a row holds exactly the observed ports with a value, and that value |
| NativeSimulator.CompileSim | core/src/spec_sim.cpp:43-84 | compilation succeeds exactly when every expression parses, and means the spec |
| NativeSimulator.Runner.RecomputeComb | core/src/spec_sim.cpp:183-200 | the slot sweeps settle as the dictionary sweeps do |
| NativeSimulator.Runner.Edge | core/src/spec_sim.cpp:106-162 | a slot-based edge mirrors the reference edge |
| NativeSimulator.Runner.Observe | core/src/spec_sim.cpp:164-171 | the row is that of the reference, X left out |
| NativeSimulator.RunSpecSim | core/src/spec_sim.cpp:204-215 | the rows are those of the reference run of the same stimulus |
| NativeSimulator.BackendsAgree | pipeline/cocotb/spec_sim.py:427-452 | which backend ran never shows in the rows |
| Handshake.EntryGuardDecides | pipeline/refinement/rules/schedule_handshake_fsm.py:206-212 | the circuit and the loop run equally long exactly when the guard holds at entry |
| Handshake.StayValue | pipeline/refinement/rules/schedule_handshake_fsm.py:203-204 | the substituted guard read now is the guard of the next loop state |
| Handshake.BusyChainValue | pipeline/refinement/rules/schedule_handshake_fsm.py:214-228 | the flattened chain is the unflattened body while BUSY and the held value otherwise |
| Handshake.StateNextValue | pipeline/refinement/rules/schedule_handshake_fsm.py:206-212 | the control chain computes the code of the next phase |
| Handshake.RegNextValue | pipeline/refinement/rules/schedule_handshake_fsm.py:214-228 | the register chain computes what the register holds in the next phase: load, step or hold |
| Handshake.EdgeSteps | pipeline/refinement/rules/schedule_handshake_fsm.py:202-261 | one simulator edge moves the circuit exactly as the abstract machine moves, no bit lost |
| Handshake.ResetIdles | pipeline/refinement/rules/initialization.py:37-76 | a reset edge leaves the machine idle with the reset values, whatever the state before |
| Runs.SimulatorFollows | pipeline/cocotb/spec_sim.py:392-424 | every simulator run of the circuit follows the abstract machine, vector by vector |
| Runs.ControlIsOneOfThree | pipeline/refinement/rules/schedule_handshake_fsm.py:206-212 | the control register never leaves 0, 1, 2, and done is high exactly in 2 |
| Runs.StartIsServed | pipeline/refinement/rules/schedule_handshake_fsm.py:202-237 | an accepted start, back to back included, keeps the circuit BUSY through the loop states for exactly as many cycles as it repeats the body, and then raises done |
| Served.StimulusServed | pipeline/refinement/rules/schedule_handshake_fsm.py:202-237 | the same from the stimulus alone: a vector that drives start to 1 and the operands to values, while the circuit is not busy and the reset port stays inactive, is followed by as many busy cycles as the loop repeats its body, the registers stepping through the loop states, and then by done |
| Runs.OtherwiseHolds | pipeline/refinement/rules/schedule_handshake_fsm.py:214-228 | without reset or accepted start a circuit that is not busy keeps its registers and is idle |
| Runs.BusyIgnoresInputs | pipeline/refinement/rules/schedule_handshake_fsm.py:202-212 | while BUSY the next state is the same whatever start and the operands show |
| Runs.DoneIsEarned | pipeline/refinement/rules/schedule_handshake_fsm.py:202-261 | done is only ever high because a start was accepted that many cycles ago and nothing disturbed it |
| Runs.ExitDelivers | pipeline/refinement/obligations.py:329-349 | registers showing an exit state satisfy the postcondition through the mapping exactly when the kernel's exit binding does |
| Runs.DoneDelivers | pipeline/refinement/rules/schedule_handshake_fsm.py:193-261 | in every run, done high means the postcondition for the operands sampled at the accepted start |
| Runs.VerdictReachesHardware | pipeline/refinement/obligations.py:417-451 | an exhaustive `ok` of the kernel is a guarantee about every run of the circuit |
| Runs.StartDeliversIff | pipeline/refinement/rules/schedule_handshake_fsm.py:206-237 | whether or not the guard held at entry, done rises and the postcondition is delivered exactly when it holds at the first exit after a step |
| UntestedEntry.UntestedEntryBreaks | pipeline/refinement/rules/schedule_handshake_fsm.py:206-212 | a loop the kernel accepts, and a simulator run of its circuit with done high and the postcondition failing, the guard being false at entry |
| Composition.OrderedAssignedVars | pipeline/refinement/bridge.py:290-307 | each left-hand side once, in order of first assignment |
| Composition.FirstSeenOrder | pipeline/refinement/bridge.py:290-307 | that listing is by first assignment |
| Composition.SequentialExprs | pipeline/refinement/bridge.py:339-387 | one entry per left-hand side, holding its value in the running dictionary |
| Composition.StepsAreSequential | pipeline/refinement/bridge.py:339-387 | every composed right-hand side, read before the cycle, is what carrying out the assignments one by one leaves in its left-hand side; cells are not forwarded |
| Composition.StepsHaveNetEffect | pipeline/refinement/bridge.py:339-387 | with decided guards that is the net effect of running the taken steps as a program |
| Composition.GuardsMayWaitIff | pipeline/refinement/bridge.py:339-387 | after every prefix of the steps the composition agrees with the program exactly when each guard decides alike before the cycle and where it stands, or its assignment changes nothing there |
| Composition.StepsRunAsProgram | pipeline/refinement/bridge.py:339-387 | then every composed right-hand side is the value the steps leave when run one after another, guards included |
| Composition.GuardsMayWait | pipeline/refinement/bridge.py:339-387 | guards that read no assigned register meet that condition |
| Composition.GuardsReadTheOldState | pipeline/refinement/bridge.py:339-387 | two steps whose second guard is decided by the old value, unlike in the program |
| Alternatives.NestedIf | pipeline/refinement/bridge.py:263-287 | folding the clauses from the last inwards gives the priority chain |
| Alternatives.AlternationExprs | pipeline/refinement/bridge.py:310-336 | one entry per left-hand side: the chain of its branches, else hold |
| Alternatives.BranchesSelect | pipeline/refinement/bridge.py:310-336 | a left-hand side takes the first true branch that assigns it, else it holds |
| Alternatives.ExclusiveBranchTaken | pipeline/refinement/bridge.py:310-336 | with exclusive guards the true branch is executed as a whole and everything else holds |
| Alternatives.FirstTrueBranchIff | pipeline/refinement/bridge.py:310-336 | the first true branch is executed as a whole at a left-hand side exactly when it assigns it or the later branch deciding it leaves it its old value |
| Alternatives.LaterBranchMixes | pipeline/refinement/bridge.py:310-336 | without exclusivity a later true branch still writes what an earlier one leaves alone |
| Alternatives.ComposeClockedActions | pipeline/refinement/bridge.py:614-672 | exactly one entry per left-hand side, in order of first assignment |
| Alternatives.ActionsSelect | pipeline/refinement/bridge.py:614-672 | conditional writers outrank unconditional ones whatever their order; within a rank the first wins, and with none the value holds |
| Alternatives.OrderOfActionsIrrelevant | pipeline/refinement/bridge.py:614-672 | exclusive writers with at most one unconditional one may be listed in any order |
| Alternatives.PermutedActionsSameEdge | pipeline/refinement/bridge.py:614-672 | such a permutation changes no register of the next state |
| Alternatives.SingleActionUnchanged | pipeline/refinement/bridge.py:592-599 | a single unconditional action composes to its own updates |
| Winners.BranchWins | pipeline/refinement/bridge.py:310-336 | a left-hand side takes the first assignment of the first branch whose guard is true and that lists it |
| Winners.NoBranchWins | pipeline/refinement/bridge.py:310-336 | with no such branch it keeps its value |
| Winners.ActionWins | pipeline/refinement/bridge.py:614-672 | the first conditional action with a true guard that lists a left-hand side gives it its last assignment |
| Winners.DefaultWins | pipeline/refinement/bridge.py:614-672 | with none of those, the first unconditional action that lists it does |
| Winners.NoActionWins | pipeline/refinement/bridge.py:614-672 | with neither it keeps its value |
| Alternatives.CellTakesLast | pipeline/cocotb/spec_sim.py:359-380 | for every list of updates a cell ends with the value of the last update whose index names it in the old state, else with its old value |
| Alternatives.StoreSurvivesIff | pipeline/cocotb/spec_sim.py:359-380 | a store survives exactly when the last update naming its cell writes the same value |
| Alternatives.LastLhsDecides | pipeline/refinement/bridge.py:614-672 | of composed actions the left-hand side naming a cell last decides it: its winner's value, or the old one when it is idle |
| Alternatives.CellsLand | pipeline/cocotb/spec_sim.py:359-380 | with one indexed left-hand side per memory its cell takes the composed value and the other cells hold |
| Alternatives.AliasedHoldUndoesWrite | pipeline/refinement/bridge.py:614-672 | two indexed left-hand sides naming one cell: the idle writer undoes the store |
| ComposedTexts.OrderedKeys | pipeline/refinement/bridge.py:290-307 | on texts, each left-hand side once, in order of first assignment |
| ComposedTexts.NestedIfDenotes | pipeline/refinement/bridge.py:263-287 | the spliced chain of texts, conditional values parenthesised, is read as the chain of the expressions |
| ComposedTexts.AlternationTexts | pipeline/refinement/bridge.py:310-336 | the texts composed from branches are read as the expressions the branches compose to |
| ComposedTexts.SequentialTexts | pipeline/refinement/bridge.py:339-387 | likewise for ordered steps, with earlier results substituted as parenthesised text |
| ComposedTexts.ComposeClockedTexts | pipeline/refinement/bridge.py:614-672 | likewise across clocked actions, each first composed from its branches, its steps or its flat updates |
| ComposedTexts.ComposedTextsSelect | pipeline/refinement/bridge.py:614-672 | the emitted text of a left-hand side, read before the edge, has the value of the action that wins it, or the held one |
| Splicing.IfDenotes | pipeline/refinement/rules/schedule_handshake_fsm.py:224-227 | `IF g THEN t ELSE e` spliced from well-bracketed texts is read as that conditional |
| Splicing.ParenDenotes | pipeline/refinement/rules/schedule_handshake_fsm.py:54-65 | a parenthesised text is an operand at every precedence level |
| Splicing.BinDenotes | pipeline/cocotb/spec_sim.py:159-217 | two tighter operands around an operator are read as that operation |
| Splicing.SubstReads | pipeline/refinement/rules/schedule_handshake_fsm.py:54-65 | reading the substituted tokens is substituting in what was read, rule by rule of the grammar |
| Splicing.SubstDenotes | pipeline/refinement/rules/schedule_handshake_fsm.py:54-65 | the text substitution of the scheduler means the substitution of expressions |
| Scheduling.TopKw | pipeline/refinement/rules/schedule_handshake_fsm.py:68-85 | the first keyword outside parentheses, or none |
| Scheduling.ParseIfChain | pipeline/refinement/rules/schedule_handshake_fsm.py:88-105 | the loop over the remainder computes the split of the chain |
| Scheduling.SplitRejoins | pipeline/refinement/rules/schedule_handshake_fsm.py:88-105 | joining what was split gives the text back, whatever the text |
| Scheduling.IfCutIff | pipeline/refinement/rules/schedule_handshake_fsm.py:68-85 | an IF is cut at its joints exactly when its guard closes its parentheses and has no THEN or ELSE outside them, and its value closes its own and has no ELSE outside them |
| Scheduling.JoinSplitsIff | pipeline/refinement/rules/schedule_handshake_fsm.py:88-105 | a chain comes apart as it was joined exactly when every guard and value is so and the default is not cut |
| Scheduling.JoinSplits | pipeline/refinement/rules/schedule_handshake_fsm.py:88-105 | in particular flat chains do |
| Scheduling.SplitDenotes | pipeline/refinement/rules/schedule_handshake_fsm.py:88-105 | a text whose pieces are expressions means the chain of its pieces |
| Scheduling.NestedValueIsTorn | pipeline/refinement/rules/schedule_handshake_fsm.py:88-105 | a conditional bare in a THEN position is cut at its own ELSE |
| Scheduling.TornValueFails | pipeline/refinement/rules/schedule_handshake_fsm.py:88-105 | the value torn off that way is no expression |
| TornValues.ExpressionsComeApartIff | pipeline/refinement/rules/schedule_handshake_fsm.py:88-105 | a chain of expression texts comes apart as it was joined exactly when no guard or value has an IF outside round parentheses and the default does not start with one |
| TornValues.ConditionalValuesAreTorn | pipeline/refinement/rules/schedule_handshake_fsm.py:68-85 | a conditional value is torn both bare and inside index brackets |
| Scheduling.PlainIsSealed | pipeline/refinement/rules/schedule_handshake_fsm.py:68-85 | an IF-free expression has no keyword and closes its parentheses, so it may stand anywhere in a flat chain |
| Scheduling.LoadDenotes | pipeline/refinement/rules/schedule_handshake_fsm.py:202-202 | the load text is read as accepting start in IDLE or DONE |
| Scheduling.StateNextDenotes | pipeline/refinement/rules/schedule_handshake_fsm.py:206-212 | the control text is read as the control expression |
| Scheduling.RegNextDenotes | pipeline/refinement/rules/schedule_handshake_fsm.py:214-228 | the register text is read as the register's next-state expression |
| Verilog.VEmbedded | pipeline/compilers/compiler2.py:657-676 | a Verilog piece is read the same wherever it stands in front of a stopping token |
| Verilog.BasicDenotes | pipeline/compilers/compiler2.py:600-628 | an IF-free expression translated token by token is read by Verilog, with its own precedence, as the same expression |
| VerilogTokens.OperatorTextTranslates | pipeline/compilers/compiler2.py:600-628 | two names around an engine operator, in any spelling, are translated to the Verilog operator's own spelling, and Verilog reads it as the same operation |
| VerilogTokens.VOperatorReads | pipeline/compilers/compiler2.py:600-628 | two names around a Verilog operator are read as that operation |
| VerilogTokens.VConditionalReads | pipeline/compilers/compiler2.py:657-676 | `c ? t : e` is read as the conditional with that THEN and that ELSE |
| Translation.SplitIfThenElse | pipeline/compilers/compiler2.py:552-598 | the two scans cut at the first THEN and the first ELSE behind it, outside parentheses |
| Translation.StripEnclosingParens | pipeline/compilers/compiler2.py:630-655 | the inside, when the first parenthesis is closed by the last token |
| Translation.ReadsBalanced | pipeline/compilers/compiler2.py:630-655 | whatever is read closes the parentheses it opens and no others |
| Translation.CleanIffFlat | pipeline/compilers/compiler2.py:657-676 | no IF, THEN or ELSE is left over exactly when the text has flat form |
| Translation.TranslateDenotes | pipeline/compilers/compiler2.py:657-676 | on flat form Verilog reads the translation as the original expression |
| Translation.NestedIf | pipeline/refinement/bridge.py:263-287 | the chain of texts with every conditional THEN value parenthesised |
| Translation.NestedIfFlat | pipeline/refinement/bridge.py:263-287 | it has flat form and means the chain of its parts, when guards are IF-free and values flat |
| Translation.NestedIfTranslates | pipeline/refinement/bridge.py:263-287 | composed and then translated, no keyword is left over and Verilog reads the chain of the parts |
| Translation.ControlChainClean | pipeline/refinement/rules/schedule_handshake_fsm.py:203-212 | the control chain compiles exactly when the guard one step ahead is IF-free |
| Translation.SubstUnkeyed | pipeline/refinement/rules/schedule_handshake_fsm.py:54-65 | that guard is IF-free exactly when the guard is and no register it reads has a conditional body |
| Translation.RegisterChainTranslates | pipeline/refinement/rules/schedule_handshake_fsm.py:214-228 | a register chain with IF-free pieces compiles to Verilog that reads the circuit's next state |
| TruthWords.TranslationMeansIff | pipeline/compilers/compiler2.py:600-676 | on flat form Verilog reads the translation as the original expression exactly when `TRUE` and `FALSE` do not occur |
| TruthWords.VReadsNames | pipeline/compilers/compiler2.py:600-628 | what Verilog reads mentions every name it has consumed |
| Sections.JoinConjuncts | pipeline/compilers/compiler2.py:688-712 | lines are joined into conjuncts: one that starts none continues the one before |
| Sections.SplitResetElse | pipeline/compilers/compiler2.py:742-781 | the lines of the reset branch, and all others, in order |
| Sections.Compiler.ExtractVariables | pipeline/compilers/compiler2.py:503-535 | the declared names, and the widths and depths their comments note |
| Sections.Compiler.ParseCombinational | pipeline/compilers/compiler2.py:717-738 | what the combinational search reads, and the base names it drives |
| Sections.Compiler.ParseSequential | pipeline/compilers/compiler2.py:798-816 | the reset list and the next-state list, and the base names they drive |
| Printing.EngineSpecToRtlTla | pipeline/refinement/bridge.py:842-953 | the list-growing loops print the sections in order |
| Printed.ResetLinePrinted | pipeline/refinement/bridge.py:924-928 | with a reset action, an active-high text holds a line that tests the port for 1 and an active-low text one that tests it for 0 |
| Printed.TextResetsAsSimulator | pipeline/refinement/bridge.py:924-928 | where that condition is true of the value a vector drives, the simulator resets; where it is false, it makes a normal step |
| Printed.ClockPrinted | pipeline/refinement/bridge.py:919-921 | the pipeline toggles the clock |
| Printed.ResetListIff | pipeline/refinement/bridge.py:894-911 | the reset list is that of the last action of the reset's name |
| Printed.CombinationalIff | pipeline/refinement/bridge.py:894-917 | a combinational assignment is one of an action that is not the reset, not clocked and not a mere hold |
| Printed.SizedIff | pipeline/refinement/bridge.py:848-878 | the declared names are the variables other than the ports, an unset width counting as a bit, the two ports, and the free inputs |
| Printed.DeclarationPrinted | pipeline/refinement/bridge.py:880-888 | a declaration's line holds the name, a comma unless it is the last, the width, and the depth of a memory |
| Printed.NumeralIsDecimal | pipeline/refinement/bridge.py:880-888 | numerals have as many decimal digits as the number and no leading zero |
| ReadBack.EntryReadsBackIff | pipeline/compilers/compiler2.py:783-796 | one printed assignment comes back exactly when its target is a name with at most one index, its right-hand side is trimmed, and neither holds a comment mark |
| ReadBack.SequentialReadsBack | pipeline/compilers/compiler2.py:742-816 | the reset list and the next-state list come back as printed, less what is never emitted |
| ReadBack.EmptySectionReadsPipeline | pipeline/compilers/compiler2.py:682-686 | an empty combinational section is read as the resets and next states behind it, the last reset taking up the keyword ELSE |
| ReadBack.CombinationalReadsBackIff | pipeline/compilers/compiler2.py:717-738 | the combinational list comes back exactly when its section is absent, not empty, or in front of a pipeline that drives nothing |
| Printed.AssignmentsComeBack | pipeline/compilers/compiler2.py:717-816 | an assignment is read back as a reset, a next state or a combinational definition exactly when the design has it as that and its target is neither a port nor a verification variable |
| Printed.OpensResetIff | pipeline/compilers/compiler2.py:742-781 | a line opens the reset branch exactly when it is `/\` , `IF` and the name of the port, with any blanks before and at least one behind `IF` |
| Printed.DefinesIff | pipeline/compilers/compiler2.py:503-515 | the declarations end at a line that starts with the footer's `====`, or holds a word and `==` with only blanks around the word |
| Printed.DrivenIff | pipeline/compilers/compiler2.py:798-816 | the names a list drives are those its entries assign to, whole or by element |
| ReadSizes.DeclarationsReadBack | pipeline/compilers/compiler2.py:503-535 | unless the title ends in the section's name, every declared name comes back, in order, with its width and depth |
| ReadSizes.NamesReadBackIff | pipeline/compilers/compiler2.py:503-535 | the names come back exactly when the title does not end in `VARIABLES` |
| ReadSizes.PrintedReadsBack | pipeline/refinement/bridge.py:842-953 | names, widths, depths, combinational list, reset list and next-state list all come back from one printed text |
| Refinement.LoopIntroduction | pipeline/refinement/rules/loop_introduction.py:107-228 | a rejected loop or an unknown action leaves the spec unchanged; an accepted one is installed |
| Refinement.InstallingChanges | pipeline/refinement/rules/loop_introduction.py:138-143 | installing a loop always changes the spec, so an unchanged spec is a refusal |
| Rules.IntroductionMeans | pipeline/refinement/rules/loop_introduction.py:107-228 | an accepted loop changes the first action of the name and no other: body, guard and marker are the request's; fresh names are declared as registers, what is computed or mapped becomes concrete and clocked, and any other variable stays |
| Refinement.ScheduleUpdates | pipeline/refinement/rules/schedule_handshake_fsm.py:202-228 | the control chain and one chain per register, or failure on a missing load value |
| Refinement.ScheduleHandshakeFSM | pipeline/refinement/rules/schedule_handshake_fsm.py:162-263 | the scheduled action, the done action and the control variables; nothing without a loop marker |
| Rules.ScheduleMeans | pipeline/refinement/rules/schedule_handshake_fsm.py:162-263 | without a marker nothing changes, with a missing load value the rule fails; else the action is clocked and unconditional, drives the control register and every register of the body, the action that raises done on 2 comes last, all others stay, and missing control names are declared with their widths |
| Rules.InitializeMeans | pipeline/refinement/rules/initialization.py:37-76 | the reset action is appended unless it exists and lists every value given for a name that is not combinational; the declarations record the value given last |
| Rules.DigestMeans | pipeline/cocotb/spec_sim.py:283-315 | the configuration: widths as declared last, an unset one a bit; the registers; the combinational definitions; the clocked actions other than the reset, each once and in order, `TRUE` alone being no guard |
| Rules.DigestResets | pipeline/cocotb/spec_sim.py:283-315 | the reset updates are those of the first action of the reset's name |
| Refinement.RequestSchedules | pipeline/refinement/rules/schedule_handshake_fsm.py:193-228 | the machine read from the texts schedules exactly the loop the kernel was asked about |
| Refinement.ScheduledReads | pipeline/refinement/rules/schedule_handshake_fsm.py:202-228 | read back, the scheduled texts are the clocked updates of the machine |
| Refinement.DerivedResetsRight | pipeline/refinement/rules/initialization.py:37-76 | the reset branch drives the control register to 0 and every loop register to its numeral |
| Refinement.DerivedCircuit | pipeline/cocotb/spec_sim.py:283-323 | the configuration the simulator digests from the derived spec is the circuit of the requested loop |
| Refinement.DerivationDelivers | pipeline/refinement/rules/loop_introduction.py:125-226 | from an accepted request to hardware: in every run of the digested circuit, done means the postcondition for the accepted operands |
| Engine.Search.ReplayChain | pipeline/refinement/engine.py:193-216 | replay applies the recorded rules in order, failing on an unknown rule |
| Engine.Search.DropLast | pipeline/refinement/engine.py:559-575 | the last choice is excluded at its depth and nowhere else, and the spec before it is restored by replay |
| Engine.Search.Backtrack | pipeline/refinement/engine.py:535-600 | at most five steps back: exactly the dropped choices are excluded, the specs passed have no applicable rule left that is not excluded, and success means the spec reached has one |
| Engine.Search.Commit | pipeline/refinement/engine.py:508-526 | a changing, not excluded application is appended, persisted, and never was committed at this depth before |
| Engine.Search.Turn | pipeline/refinement/engine.py:408-526 | the chain grows exactly when the model checker accepts and the picked rule is registered, applicable, allowed, not too long, not excluded here and gives a different spec; a legal pick that fails, idles or is rejected is excluded here and nowhere else; an illegal or idle pick counts a strike and the third steps back |
| Engine.Search.Run | pipeline/refinement/engine.py:354-528 | over any picks and verdicts the chain replays to the spec; every commit belongs to a turn the model checker accepted and holds that turn's pick; the log lists every step of the chain and no choice twice at a depth; the cap is reached after exactly that many turns, exhaustion means an empty chain or no rule left; a picker that never chooses is exhausted after three turns per depth |
| Engine.RecordedReplays | pipeline/refinement/engine.py:193-216 | a recorded chain replays to its last spec |
| Engine.ReplayMeansIff | pipeline/refinement/engine.py:193-216 | replay succeeds exactly when a sequence of specs leads from the start through every step by its registered rule, and gives its last spec |
| Engine.ReplayAppend | pipeline/refinement/engine.py:337-352 | replaying a prefix and then a pass is replaying their concatenation |
| Engine.RunPass | pipeline/refinement/engine.py:337-352 | across passes the persisted chain leads from the initial spec to the returned one, its steps numbered from 0 |
| VerifiedChain.CommittedLoopsAreVerified | pipeline/refinement/rules/loop_introduction.py:125-143 | whatever was proposed, a committed LoopIntroduction step is a loop the kernel accepted |
| VerifiedChain.ChainDerives | pipeline/refinement/engine.py:354-528 | a recorded chain of the three rules ends in the derived spec of an accepted loop |
| VerifiedChain.EngineDelivers | pipeline/refinement/engine.py:354-528 | from a finished engine run to hardware, for every run of the returned spec's circuit |
| Multiplier.NumsInvariant | pipeline/agents/agent3.py:347-358 | product plus multiplier times multiplicand stays the product of the operands modulo 2^32, for every width up to 32 |
| Multiplier.MulCorrect | pipeline/agents/agent3.py:347-358 | for every width up to 32 and all operands the loop runs exactly as often as the operands have bits, and no other number of times, and meets all three obligations |
| Multiplier.MulDischarges | pipeline/refinement/obligations.py:365-451 | hence the kernel accepts the derivation in both modes |
| Multiplier.MulFits | pipeline/agents/agent3.py:330-337 | up to width 32, with registers of twice the width, no commit truncates |
| Multiplier.MultiplierMultiplies | pipeline/agents/agent3.py:347-376 | in every run of a circuit that schedules the multiplier, done announces the product modulo 2^32 of the operands accepted as many vectors earlier as they have bits, up to width 16 the exact product |
| DerivedMultiplier.MulReadsBack | pipeline/agents/agent3.py:347-358 | the texts of the proposal are read by the kernel as that derivation |
| DerivedMultiplier.MulMachineOf | pipeline/agents/agent3.py:347-358 | the texts of the proposal come apart into that machine |
| DerivedMultiplier.DerivedMultiplies | pipeline/agents/agent3.py:366-376 | from `product = a * b` through the three rules to the digested circuit: done announces the product modulo 2^32, up to width 16 the exact product, for every width from 1 to 32 |
| DerivedMultiplier.StimulusMultiplied | pipeline/agents/agent3.py:366-376 | the same from the stimulus alone: start and operands driven in one vector, the reset port inactive from there on, and after as many vectors as the operands have bits done is 1 with the product modulo 2^32, exact up to width 16 |
| DerivedMultiplier.ProductRow | pipeline/agents/agent3.py:366-376 | the row reported for that vector shows done and the product |

## Left out

- Calls to the language model, prompts, the diagnoser, stage graphs, run directories and usage accounting: foreign calls and plumbing. The picker and the model checker of the engine are arbitrary oracles.
- Character-level tokenising, saturating literals and Unicode: expressions start from tokens, and keywords are tokens of their own, as in the single-space form the bridge prints.
- Division through floating point: the source divides through a float, exact below 2^53; the model divides exactly.
- Expressions.Eval: a bare memory name read as a scalar has the value X here; the source would hand the list itself to the operator.
- Negative stimulus values and values that are not numbers: inputs are naturals or X.
- Kernel.DischargeLoopObligations: discharges in which an expression raises, which takes an index on a name that an input, an initial assignment, the body or the mapping binds; the kernel theorems are about calls that return. Input names are taken as already sorted. The audit text of a counterexample is a datatype, not a string.
- NativeKernel.NativeDischarge: requires the same, and fails where some expression does not parse, which the reference kernel notices only when it evaluates it.
- NativeSimulator.Runner.Edge: widths of 64 bits and more, where the native mask keeps the value, and specs that write or read a memory other than by index.
- NativeSimulator.Runner.Observe: an output port that names a memory, and a memory read as a bare name; the reference hands over its list there, and the model the value X.
- Composition.StepsHaveNetEffect: intermediate values are not masked to register widths, as in the source, where only the composed value is masked at the commit.
- Handshake.EdgeSteps: states with an X in a loop register, in start or in an operand; after the reset pulse, with defined inputs, they do not occur.
- Engine.Search.Run: hashes are equality of specs, disk is a field, and an exception other than the three the engine catches (such as the interpreter's IndexError on a truncated expression) is not modelled. The exclusion test the source repeats after validation can never succeed and is not repeated here.
- Refinement.ScheduleHandshakeFSM: the updates of a marked action are taken as the dictionary LoopIntroduction installed, each register once. The audit record, the abstraction mapping and the type strings of variables are not modelled.
- Refinement.DerivationDelivers: specs with one statement and numeral reset values, control names not declared before, and an exhaustive verdict; a sampled verdict proves nothing beyond the sampled inputs.
- Rules other than LoopIntroduction, ScheduleHandshakeFSM and Initialization: arbitrary pure functions in the engine. They can rewrite a spec without the kernel, so no claim is made about results reached through them.
- Printing.EngineSpecToRtlTla: the widths inferred for free inputs are given, and so is the composed next-state list as lines of characters; `ComposedTexts.dfy` models how it is composed, on tokens.
- ComposedTexts.ComposeClockedTexts: each left-hand side is spelled in one way, since the source keys a cell written `m[i]` and `m[(i)]` twice; and no register that steps assign is indexed as a memory by them.
- ReadSizes.PrintedReadsBack: texts containing `==`, a comment mark or a line break, none of which an expression of the engine language contains; names that are no words; Unicode blanks; a section name at the end of a line in front of one that starts with `==`; and comments in `(* *)`, which the bridge never prints.
- Interpreter.EvalText: which of IndexError and TypeError a truncated text raises first.
- Verilog module text, the port classification, the banlist, Compiler 1 and the testbench generator: text emission.
- Verilog semantics beyond how an expression is read: the translator's theorem identifies the expression; X in `&&`, `||` and `?:` is less pessimistic in Verilog than in the engine language.
