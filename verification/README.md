# Extempore: models and proofs

Extempore is a live-coding environment built on a Scheme interpreter.  This project models its core in
Dafny and proves what that core is there for:

* **The collector** (`Treadmill*.dfy`).  The cells lie on one doubly linked ring, cut into free, ecru, grey and
  black arcs.  `TreadmillArcs` names the moves on the arcs, `TreadmillRing` shows that the pointer code makes
  exactly these moves; `TreadmillGrowth` says over whole cycles when the ring grows.  `TreadmillRun` interleaves
  mutator, scanner and flip in every possible way; `TreadmillHandshake` proves, for all those runs, that the flip excludes the scanner, that a scan ends and that no cell is
  lost; `TreadmillSafety` proves that nothing reachable is ever reclaimed in runs whose flips start with dark
  registers.  Where the code needs a hypothesis, a lemma says that it is exactly what is needed
  (`FlipIsSafeIffRootsDark`, `Treadmill.Insert`, `Treadmill.Splice`, `LinkIsGoodIff`) or gives a run that goes wrong without
  it (`LoadedRegisterReclaimed`, `StaleLinkHandsOutGrey`, `SpuriousWakeupBreaksExclusion`).
* **The register machine** (`Registers`, `MachineRuns`, `Adequacy`, `Scheme*.dfy`, `RegisterFile`).
  `SchemeMachine` has one step for each opcode, `SchemeEvaluator` is a big-step evaluator with a store of frames.
  From `OP_EVAL` above any dump the machine returns, fails or runs for ever exactly if the evaluator gives a value,
  faults or never has enough fuel.  `SchemeTailCalls` proves that a run of tail calls, however long, stays within a
  bounded dump.  `SchemeRules`, `SchemeCallRules` and `SchemeFormRules` say what every form means, as rules over
  names, values and frames (`SchemeFrames`) that do not depend on how machine or evaluator take a form apart.
  `SchemeInterpreter` and `SchemeEvalCycle` are the imperative form, with registers as fields.
* **Continuations** (`CellLists`, `Continuations`, `DumpStack`).  Frames hold lists of cells that the interpreter
  turns round in place; copies at capture and at every invocation make continuations re-enterable.
* **Reader and printer** (`Lexer`, `AtomRoundTrip`, `Words`, `Comments`, `CommentedText`, `CommentsRead`,
  `Reader`, `Printer`, `Parsing`, `Layouts`, `WrittenText`, `ReadWrite`, `ReaderEnds`, `TextPort`, `TextInterpreter`, `WriteRead`).  Both are step machines over the same dump.  What was written
  reads back, with an exact account of the data for which it does not.  `Parsing` works for any scanner and any layout of
  texts that fit together; `ReadWrite` shows that the program's do.  `ReaderEnds` says exactly which texts are read to
  an end, `CommentsRead` where comments may stand.  `TextInterpreter` and `WriteRead` are the imperative form, on the
  cursor of a string port.
* **Exact numbers** (`ExactNumbers`).  Cells in lowest terms by the sign-carrying Euclid loop; the arithmetic
  folds compute the rational result.
* **The audio barrier** (`AudioBarrier`, `AudioProgress`, `AudioBuffers`), for any number of workers and any interleaving:
  what every call puts out, and that every call returns.
* **The zone allocator** (`Zones`), **the command line parser** (`SimpleOpt`, `SimpleOptReports`,
  `SimpleOptParser`), **SLIP and OSC** (`Slip`, `OscArguments`, `OscMessage`) and **base64** (`Base64`).

What the source updates in place is a class or an array here, and its methods are proved against functions on
values, about which the lemmas then speak.

Findings, in the sense of places where the code does less than its own comments or tests lead one to expect:

* An insertion with a single ecru cell left, and a growth by a single cell, leave pointers that stand for no
  four arcs.  A growth by a single cell comes about when one vector of two elements is made in a busy cycle: its
  length is added to an `allocation_request` of -1 (src/Scheme.cpp:1394, 1843, 1881).
* Roots are marked after `dark` has been toggled, so that a flip reclaims the cell of a register that holds
  an ecru cell; a load from the heap into a register has no barrier that would prevent it.
* Allocation takes no mutex between reading the clockwise link of the first free cell and using it; with one free cell
  left the scanner may shade the cell that the link names, which is then handed out although it is in use.
* `(unquote @a)` is written `,@a`, which reads as something else; symbols that begin with `@` behind a
  comma are the only case.
* A comment in an empty list or behind the datum after a dot is a read error, and so is a second comment before a dot or
  before the end of a list: `OP_RDLIST` skips one comment only (src/Scheme.cpp:5226-5232) and `OP_RDDOT` none.
* A text that ends inside a list, or has a NUL there, is read for ever unless it comes from the load port; `(` is the
  shortest.
* The sign of a rational cell may be with the denominator; equality of cells is equality of numbers nevertheless.
* Bytes behind a SLIP frame in the same read are dropped, so that of several frames all arrive exactly if every one of them
  ends where a read ends.
* The test for room in a zone suffices for zones of suitable sizes only (`Zones.FitsIff`).

## Model

| member | source | states |
|---|---|---|
| TreadmillArcs.ShadeConserves | src/Scheme.cpp:174-341 | the insertion barrier moves an ecru cell to the grey arc and leaves every other cell where it was |
| TreadmillArcs.AllocateConserves | src/Scheme.cpp:1093-1126 | an allocation turns the first free cell black and nothing else |
| TreadmillArcs.AdvanceConserves | src/Scheme.cpp:1989-2118 | a scan step turns the grey cell at `scan` black and nothing else |
| TreadmillArcs.FlipConserves | src/Scheme.cpp:1795-1797 | the free cells after a flip are exactly the old ecru cells, and every cell is still on the ring as often as before |
| TreadmillArcs.GrowConserves | src/Scheme.cpp:1828-1875 | growth adds exactly the spliced cells |
| TreadmillArcs.ShadeAllMarks | src/Scheme.cpp:1606-1660 | marking all roots leaves every cell in its arc except roots found ecru, which become grey; afterwards no root is ecru, and there are as many grey and ecru cells together as before |
| TreadmillGrowth.WithinCycle | src/Scheme.cpp:320 | between two flips the counters count: the insertions made, and the lengths of the vectors made on top of what was asked for |
| TreadmillGrowth.GrowthOverCycles | src/Scheme.cpp:1828-1881 | whatever happened in earlier cycles, the flip that ends a cycle adds cells exactly if twice its insertions and 40000 more exceed the cells in all; and then as many as the cycle's vectors are long, less one, or 100000 if they have no element |
| TreadmillGrowth.FirstGrowth | src/Scheme.cpp:1828-1881 | the same for the first cycle, which no flip begins |
| TreadmillRun.StepKeeps | src/Scheme.cpp:174-341 | every step of mutator and scanner, in any interleaving, keeps the invariant: no black cell points to an ecru cell, no cell in use points to a free one, arcs are disjoint, and the handshake state is consistent, provided that a flip starts with dark roots |
| TreadmillRun.BarrierKeeps | src/Scheme.cpp:4369-4397 | a store with its barrier keeps the invariant while the pointer is shaded and while it is written |
| TreadmillRun.ScanShadingKeeps | src/Scheme.cpp:2024-2098 | shading a child of the scanned cell keeps the invariant, although the mutator may store into that cell in between |
| TreadmillSafety.RunKeeps | src/Scheme.cpp:1664-2144 | the invariant over whole runs whose flips start with dark registers |
| TreadmillSafety.NothingReachableIsFree | src/Scheme.cpp:1093-1126 | GC safety: after any disciplined run no cell reachable from a register is free, so allocation never hands out a reachable cell |
| TreadmillSafety.FlipIsSafeIffRootsDark | src/Scheme.cpp:1606-1660 | a flip reclaims only unreachable cells if and only if no register holds an ecru cell at that moment: roots are marked after `dark` is toggled, which is too late for an ecru root |
| TreadmillHandshake.StepConserves | src/Scheme.cpp:1795-1880 | no step loses, copies or invents a cell: each is on the ring as often as before, but for those that growth adds, and the flip frees exactly the ecru cells |
| TreadmillHandshake.FlipExcludesScanner | src/Scheme.cpp:1664-1686 | while the mutator is between seeing `treadmill_scanner_finished` and clearing `treadmill_flip_active` the scanner is parked |
| TreadmillHandshake.SpuriousWakeupBreaksExclusion | src/Scheme.cpp:2125-2134 | the exclusion rests on waits that do not end by themselves |
| TreadmillHandshake.WakingEnds | src/Scheme.cpp:1962-1980 | a lost signal does no harm: it is repeated until acknowledged, and every step of the scanner brings the acknowledgement nearer |
| TreadmillHandshake.ScanMoves | src/Scheme.cpp:2007-2118 | while the mutator waits in a flip, every step lowers a measure headed by 2*ecru+grey |
| TreadmillHandshake.ScanEnds | src/Scheme.cpp:1672-1683 | the scanner can always go on, unless it comes to an insertion with a single ecru cell, and when it has finished no grey cell is left |
| TreadmillHandshake.WaitIsBounded | src/Scheme.cpp:1672-1683 | whoever takes which steps, the wait takes no more of them than a number that the arcs and the sizes of the cells give |
| TreadmillHandshake.WaitEnds | src/Scheme.cpp:1672-1683 | and by its own steps the scanner comes to the end of it, with no grey cell left |
| TreadmillHandshake.RunKeepsShell | src/Scheme.cpp:1664-2144 | over every run, whether or not flips start with dark registers: cells are on the ring once, the handshake is consistent, the empty list is kept, and the link an allocation has read is right or has been taken by the scanner |
| TreadmillHandshake.LinkIsGoodIff | src/Scheme.cpp:1102-1126 | the link that an allocation has read is still right exactly if other cells are free, or the scanner has not taken the cell at `bottom` since |
| TreadmillHazards.StaleLinkHandsOutGrey | src/Scheme.cpp:1102-1126 | a run of an allocation beside the scanner, with all registers dark, in which the link that is about to become `treadmill_free` names a grey cell that a register reaches |
| TreadmillHazards.LoadedRegisterReclaimed | src/Scheme.cpp:1606-1660 | a concrete run in which every store has its barrier and yet a register's cell is reclaimed: the barrier alone does not keep registers dark |
| TreadmillRing.Unlink | src/Scheme.cpp:159-166 | taking a cell off the doubly linked ring |
| TreadmillRing.LinkAfter | src/Scheme.cpp:320-327 | putting a cell back, counter-clockwise of another |
| TreadmillRing.LinkSegment | src/Scheme.cpp:1005-1031 | a new segment is one ring in the order of its cells |
| TreadmillRing.Treadmill.constructor | src/Scheme.cpp:1005-1046 | the first ring: one half free, one half ecru; no insertion is counted, all cells are, and no cells are asked for |
| TreadmillRing.Treadmill.Insert | src/Scheme.cpp:174-341 | the barrier on the pointer ring refines the move on four arcs exactly if `bottom` and `top` differ; otherwise the pointers represent no arcs at all; one insertion is counted exactly if the cell was light |
| TreadmillRing.Treadmill.AdjustPointers | src/Scheme.cpp:210-320 | which of `bottom`, `top` and `scan` move, and where the cell goes, in all cases of the cell's place; the insertion is counted unless it is refused |
| TreadmillRing.Treadmill.MoveCell | src/Scheme.cpp:320-337 | unlinking and relinking the cell between the ecru and the grey arc |
| TreadmillRing.Treadmill.GetFree | src/Scheme.cpp:1102-1126 | allocation on the ring refines taking the first free cell |
| TreadmillRing.Treadmill.AdvanceScan | src/Scheme.cpp:2100-2105 | the scan pointer's step refines blackening the last grey cell |
| TreadmillRing.Treadmill.Exchange | src/Scheme.cpp:1793-1798 | the exchange of pointers refines the exchange of arcs and toggles `dark` |
| TreadmillRing.Treadmill.MarkRoots | src/Scheme.cpp:1606-1660 | marking refines shading each root in turn; all roots are dark afterwards, and as many insertions are counted as grey cells are gained |
| TreadmillRing.Treadmill.Splice | src/Scheme.cpp:1828-1875 | splicing new cells in front of `bottom` refines growth unless exactly one cell is added; then the ring is broken |
| TreadmillRing.Treadmill.GrowIfBusy | src/Scheme.cpp:1815-1878 | cells are added exactly if twice the insertions and 40000 more exceed the cells in all: as many as were asked for, or 100000 if none were |
| TreadmillRing.Treadmill.Flip | src/Scheme.cpp:1793-1966 | a whole flip refines exchange, growth and marking on arcs; the counters start anew, and all roots are dark |
| TreadmillRing.Treadmill.GetCell | src/Scheme.cpp:1093-1126 | allocation, with a flip when no cell is free, refines the moves on arcs; without a flip the counters stay |
| TreadmillRing.Treadmill.CountVector | src/Scheme.cpp:1394 | a vector adds its length to what is asked for |
| TreadmillRing.StaleFreeLink | src/Scheme.cpp:1102-1126 | the link that allocation reads without the mutex is stale exactly if one free cell is left and the scanner takes its neighbour |
| SchemeFrames.ParamsBound | src/Scheme.cpp:3633-3654 | a call with enough arguments puts argument i under parameter i in its frame, for every i, and the list of the others under a parameter behind the dot; all other frames stay; too few arguments are an error and surplus ones are dropped |
| SchemeFrames.SlotsHold | src/Scheme.cpp:3633-3654 | with distinct parameters each stands for its own argument, a name standing for what its first slot holds |
| SchemeFrames.OneCallFrame | src/Scheme.cpp:3633-3654 | there is one such frame |
| SchemeFrames.LetBound | src/Scheme.cpp:3833-3838 | the same for the slots that `let` and `letrec` make of their bindings |
| SchemeMachine.FindSlot | src/Scheme.cpp:3005-3028 | the innermost slot of that name, in the first frame alone unless all are asked for; a slot that is found exists |
| SchemeFrames.FindsFirst | src/Scheme.cpp:3005-3028 | the search finds the innermost frame that has the name, and the first slot of that name in it; restricted to one frame, it looks there only |
| SchemeFrames.DefineChanges | src/Scheme.cpp:3750-3758 | after a definition the name stands for the new value in the innermost frame; all other names and frames are as they were |
| SchemeFrames.SetSlotChanges | src/Scheme.cpp:3772-3776 | after an assignment the name stands for the new value in the frame that has it, and nothing else changes |
| SchemeFrames.PrimitiveComputes | src/Scheme.cpp:4219-4772 | for which arguments each of the nine primitives has a value, and which: pairs and their parts, sums and differences over whole lists, equality of all numbers |
| SchemeRules.YieldsIffReturns | src/Scheme.cpp:3230-3280 | what the rules below say of an expression holds of the machine at `OP_EVAL` above any dump |
| SchemeRules.YieldsOnce | src/Scheme.cpp:3527-4010 | an expression has one value and one resulting store at most |
| SchemeRules.VariableRule | src/Scheme.cpp:3530-3555 | a bound variable has the value that it stands for in the innermost frame with its name |
| SchemeRules.UnboundRule | src/Scheme.cpp:3530-3555 | an unbound one is an error |
| SchemeRules.QuoteRule | src/Scheme.cpp:3694-3696 | `quote` gives its datum |
| SchemeRules.LambdaRule | src/Scheme.cpp:3679-3680 | `lambda` gives a closure over the environment it is evaluated in |
| SchemeRules.IfRule | src/Scheme.cpp:3791-3802 | anything but `#f` selects the first branch, in the store that the test leaves |
| SchemeRules.OneArmedIfRule | src/Scheme.cpp:3791-3802 | without an alternative a false test gives the empty list |
| SchemeRules.BeginRule | src/Scheme.cpp:3781-3789 | forms in order, each in the store of the one before, and the value of the last |
| SchemeRules.DefineRule | src/Scheme.cpp:3698-3758 | `define` changes the innermost frame only, and its value is the name |
| SchemeRules.DefineFunctionRule | src/Scheme.cpp:3698-3712 | `(define (f . params) . body)` defines a closure |
| SchemeRules.SetRule | src/Scheme.cpp:3767-3779 | `set!` changes the innermost frame that has the name, and its value is the value assigned |
| SchemeRules.SetUnboundRule | src/Scheme.cpp:3767-3779 | assigning to an unbound name is an error |
| SchemeCallRules.CallRule | src/Scheme.cpp:3569-3659 | operator, then operands in order, then the body in a new frame inside the closure's environment, with every parameter bound to its argument |
| SchemeCallRules.TooFewRule | src/Scheme.cpp:3634-3638 | a call with too few arguments is an error |
| SchemeCallRules.PrimitiveRule | src/Scheme.cpp:3569-3628 | a call of a primitive gives what the primitive computes of the operands' values |
| SchemeCallRules.CallReturnsArgument | src/Scheme.cpp:3569-3659 | for distinct parameters and at least as many constants, the machine evaluating `((lambda (p0 ... pn) pi) c0 c1 ...)` returns ci, whichever i, and no frame of the store changes |
| SchemeFormRules.LetRule | src/Scheme.cpp:3804-3854 | `let`: expressions outside, body inside one new frame with each name bound to its value |
| SchemeFormRules.NamedLetRule | src/Scheme.cpp:3804-3854 | named `let`: the frame holds the loop's closure too |
| SchemeFormRules.LetStarRule | src/Scheme.cpp:3856-3906 | `let*`: the first expression outside, the others in the one frame after the bindings before them |
| SchemeFormRules.LetrecRule | src/Scheme.cpp:3908-3935 | `letrec`: expressions inside the frame, bindings after all of them |
| SchemeFormRules.CondRule | src/Scheme.cpp:3937-3967 | `cond`: tests in order up to the first that is not `#f`; its clause gives the test's value, the call behind `=>`, or its body |
| SchemeFormRules.NoClauseRule | src/Scheme.cpp:3937-3967 | with no such test, the empty list |
| SchemeFormRules.ConnectiveRule | src/Scheme.cpp:3974-4010 | `and` and `or`: forms in order up to the one that decides, or the last |
| SchemeFormRules.EmptyConnectiveRule | src/Scheme.cpp:3974-4010 | without forms, true and false |
| SchemeCorrectness.EvaluateAgrees | src/Scheme.cpp:3527-3567 | for every amount of fuel the machine at `OP_EVAL` does what the big-step evaluator says: the value returns to an untouched dump, an error stops it, and lack of fuel means that it still goes on |
| SchemeCorrectness.ListAgrees | src/Scheme.cpp:3582-3597 | operands and binding expressions pile up on `args` and are turned round |
| SchemeCorrectness.ApplyAgrees | src/Scheme.cpp:3606-3659 | applying closures and primitives |
| SchemeCorrectness.BeginAgrees | src/Scheme.cpp:3781-3789 | bodies |
| SchemeCorrectness.IfAgrees | src/Scheme.cpp:3791-3802 | `if` |
| SchemeCorrectness.DefineAgrees | src/Scheme.cpp:3698-3758 | `define`, in both forms |
| SchemeCorrectness.SetAgrees | src/Scheme.cpp:3767-3779 | `set!` |
| SchemeCorrectness.LetAgrees | src/Scheme.cpp:3804-3854 | `let`, named or not; a named `let` without bindings is an error |
| SchemeCorrectness.LetStarAgrees | src/Scheme.cpp:3856-3906 | `let*`, whose bindings share one frame |
| SchemeCorrectness.LetrecAgrees | src/Scheme.cpp:3908-3935 | `letrec` |
| SchemeCorrectness.CondAgrees | src/Scheme.cpp:3937-3967 | `cond`, with `=>` |
| SchemeCorrectness.AndOrAgrees | src/Scheme.cpp:3974-4010 | `and` and `or` |
| SchemeTheorems.ReturnsIffEvaluates | src/Scheme.cpp:3230-3280 | from `OP_EVAL`, above any dump, the machine returns a value, a store and a peak of frames to that dump if and only if the evaluator gives them for some fuel |
| SchemeTheorems.FailsIffEvaluatorFaults | src/Scheme.cpp:3527-4010 | it stops with an error if and only if the evaluator does |
| SchemeTheorems.RunsForEverIffNoFuelIsEnough | src/Scheme.cpp:3527-4010 | it never ends if and only if no fuel is enough |
| SchemeTheorems.MoreFuelSameAnswer | src/Scheme.cpp:3527-4010 | fuel decides only whether there is an answer: the language is deterministic |
| SchemeTheorems.StopsIffEvaluates | src/Scheme.cpp:5626-5730 | with an empty dump the machine stops with a value and a store if and only if the evaluator gives them |
| SchemeTheorems.ErrsIffEvaluatorFaults | src/Scheme.cpp:5626-5730 | and with an error if and only if the evaluator faults |
| SchemeTailCalls.TailReached | src/Scheme.cpp:3624-3659 | whatever an expression goes on with in tail position (a call with the last form of its closure, `begin`, `if`, `cond` with `=>`, `let`, `let*`, `letrec` with theirs), the machine comes to evaluate it on the dump that it evaluates the expression on |
| SchemeTailCalls.CallReached | src/Scheme.cpp:3569-3659 | a call: operator, operands, and the last form of the body |
| SchemeTailCalls.LastFormReached | src/Scheme.cpp:3781-3789 | a body |
| SchemeTailCalls.BranchReached | src/Scheme.cpp:3791-3802 | `if` |
| SchemeTailCalls.ChosenClauseReached | src/Scheme.cpp:3937-3967 | `cond`, past any number of clauses |
| SchemeTailCalls.LetReached | src/Scheme.cpp:3804-3854 | `let`, named or not |
| SchemeTailCalls.LetStarReached | src/Scheme.cpp:3856-3892 | `let*` |
| SchemeTailCalls.LetrecReached | src/Scheme.cpp:3908-3935 | `letrec` |
| SchemeTailCalls.TailCallsInBoundedDump | src/Scheme.cpp:3624-3659 | a run of tail calls, however many, comes to evaluate the last expression on the dump it began with, and takes no more frames on the way than one of the calls |
| SchemeTailCalls.TailCallsReturn | src/Scheme.cpp:3230-3280 | and returns its value, if it has one, having taken no more frames than a call or that expression takes |
| SchemeTailCalls.EndlessTailCalls | src/Scheme.cpp:3230-3280 | a loop of tail calls that never ends stays within the same frames for ever |
| SchemeTailCalls.AndOrTakesAFrame | src/Scheme.cpp:3974-4010 | the last form of an `and` or `or`, after any number of others, is evaluated above a frame that has nothing left to do: it is not in tail position |
| RegisterFile.Scheme.SSave | src/Scheme.cpp:3230-3254 | one more frame on the dump, of the given opcode, arguments and code and the current environment; the frames below stay |
| RegisterFile.Scheme.SReturn | src/Scheme.cpp:3256-3280 | opcode, arguments, environment and code come back from the top frame, which is taken off, with the value; with no frame the machine stops |
| SchemeInterpreter.FindSlotInEnv | src/Scheme.cpp:3005-3028 | the loop over frames finds the slot that the recursive lookup finds |
| SchemeInterpreter.BindArguments | src/Scheme.cpp:3629-3651 | the loop over parameters makes the slots that `BindParams` makes |
| SchemeInterpreter.OpEval | src/Scheme.cpp:3527-3567 | variables are looked up in all frames and must be bound; keywords go to their opcode with the form's rest; other pairs save `OP_E0ARGS` and evaluate their head; the rest evaluates to itself |
| SchemeInterpreter.OpApply | src/Scheme.cpp:3606-3659 | primitives go to their opcode; a closure gets a new frame of parameters over its own environment and its body as code, and saves nothing; anything else is an error |
| SchemeInterpreter.OpList | src/Scheme.cpp:3582-3597 | the value joins `args`, and either the next expression is evaluated over a frame that holds them or the list is turned round and taken apart |
| SchemeInterpreter.OpLet | src/Scheme.cpp:3804-3854 | binding expressions first, then a frame of slots, for a named `let` with the loop's closure in it |
| SchemeInterpreter.OpLetStar | src/Scheme.cpp:3856-3906 | the first binding makes the frame, the others go into it; the last leaves nothing saved when the body begins |
| SchemeInterpreter.OpLetrec | src/Scheme.cpp:3908-3935 | the frame comes before the binding expressions, the slots after them |
| SchemeInterpreter.OpCond | src/Scheme.cpp:3937-3967 | clauses in turn; a chosen one with no body gives its value, with `=>` the call of its receiver on the quoted value |
| SchemeInterpreter.OpAndOr | src/Scheme.cpp:3974-4010 | forms in turn until the answer is known, each over a saved frame |
| SchemeInterpreter.OpDefineSet | src/Scheme.cpp:3698-3779 | `define` makes or overwrites a slot of the first frame, `set!` overwrites the innermost slot of that name or is an error |
| SchemeInterpreter.Execute | src/Scheme.cpp:3527-4010 | dispatch: every opcode leaves the registers and the dump as the step of the machine says, of which `SchemeTheorems` speaks |
| SchemeEvalCycle.EvalCycle | src/Scheme.cpp:5626-5730 | any number of opcodes one after the other leave what that many steps of the machine leave; from `OP_EVAL` and an empty dump, a value and store that come out are the evaluator's, and so is an error |
| SchemeEvalCycle.EvalToTheEnd | src/Scheme.cpp:5626-5730 | the loop without a limit ends for every expression that the evaluator finishes, with its value and store or with an error |
| CellLists.TurnedIsReverse | src/Scheme.cpp:2825-2841 | turning a list round in place gives the same cells in reverse order in front of the terminator |
| CellLists.TurnedElsewhere | src/Scheme.cpp:2825-2841 | turning round changes no `car`, and no other cell |
| CellLists.SpineDistinct | src/Scheme.cpp:2825-2841 | a proper list has no cell twice, so the loop ends |
| CellLists.PileTurned | src/Scheme.cpp:3317-3324 | consing the elements up and turning the result round is copying |
| Continuations.CopyFramesCorrect | src/Scheme.cpp:3352-3363 | copied frames hold what the frames held, in cells of their own |
| Continuations.StepKeeps | src/Scheme.cpp:3326-3365 | whatever a program does, the cells of saved frames stay out of its reach, and every continuation keeps what it holds |
| Continuations.ContinuationsKeep | src/Scheme.cpp:3326-3365 | the same over whole runs |
| Continuations.InvocationIsEnabled | src/Scheme.cpp:3660-3667 | a continuation can be invoked at any later time |
| Continuations.Reenterable | src/Scheme.cpp:3660-3667 | every invocation, however often and after whatever, restores a dump equal to the one at capture |
| Continuations.ReturnUndoesSave | src/Scheme.cpp:3230-3280 | a return after a save gives the saved registers, the value, and the dump as it was; with an empty dump only the value changes |
| Continuations.Resumes | src/Scheme.cpp:3660-3667 | after any invocation the next return goes on as at capture: with the arguments, environment and code of the frame then on top, and the frames below it |
| Continuations.ActionsDo | src/Scheme.cpp:4353-4397 | what assignments, stores and consing do to registers and cells |
| Continuations.PathsGoOn | src/Scheme.cpp:4353-4358 | whatever cell a program can reach, its two fields it can reach too |
| Continuations.CopyingIsNeeded | src/Scheme.cpp:3332-3340 | without the copy at invocation one reversal of arguments damages the continuation |
| DumpStack.Interpreter.constructor | src/Scheme.cpp:3288-3292 | no frames and no room |
| DumpStack.Interpreter.SSave | src/Scheme.cpp:3230-3254 | the frame of the given opcode, arguments and code and the current environment on top, the frames below as they were, and room for three more if the dump was full |
| DumpStack.Interpreter.SReturn | src/Scheme.cpp:3256-3280 | arguments, environment and code of the top frame come back with the value, and the frame is gone; with none only the value changes |
| DumpStack.Interpreter.ReverseInPlace | src/Scheme.cpp:2825-2841 | the loop turns the list round |
| DumpStack.Interpreter.ListCopy | src/Scheme.cpp:3317-3324 | the loop makes the copy |
| DumpStack.Interpreter.DumpStackCopy | src/Scheme.cpp:3343-3367 | capture: copies of all frames, with the same contents, in cells made for them; the dump stays |
| DumpStack.Interpreter.DumpStackContinuationSet | src/Scheme.cpp:3326-3341 | reinstatement: copies of the saved frames, with the same contents, in cells made for them; they always fit |
| Lexer.ReadString | src/Scheme.cpp:2441-2518 | a literal ends inside the text or is an error |
| AtomRoundTrip.LiteralReadsBack | src/Scheme.cpp:2599-2644 | for every NUL-free string and any text behind it, reading the written literal gives the string and stops behind the closing quote, exactly if the buffer holds the string and its terminator; otherwise it fails |
| AtomRoundTrip.EscapedCharacter | src/Scheme.cpp:2337-2348 | every character, 0xff included, is read back from its escape |
| AtomRoundTrip.SymbolReads | src/Scheme.cpp:1461-1541 | names that are taken for themselves |
| AtomRoundTrip.IntegerReads | src/Scheme.cpp:1461-1541 | 64-bit integers |
| AtomRoundTrip.CharAtom | src/Scheme.cpp:1545-1596 | characters 0 to 127, delimiters among them |
| AtomRoundTrip.BooleanReads | src/Scheme.cpp:1545-1596 | `#t` and `#f` |
| Words.SignedDigits | src/Scheme.cpp:1484-1541 | digits, with `+`, with `-` and without a sign, however many: beyond 64 bits they are read as the nearest number |
| Words.PlusReads | src/Scheme.cpp:1484-1492 | a plus sign in front of digits changes nothing of what is read |
| Words.LeadingZero | src/Scheme.cpp:1541 | nor does a zero in front change the value of digits |
| Words.FractionIsLiteral | src/Scheme.cpp:1505-1540 | digits with a point or a slash among them are a real or a ratio |
| Words.ExponentIsLiteral | src/Scheme.cpp:1521-1536 | and with an exponent, signed or not, a real |
| Words.WordIsSymbol | src/Scheme.cpp:1484-1541 | a word with a character that occurs in no number, and without `::`, is the symbol of that name |
| Words.ColonHook | src/Scheme.cpp:1469-1478 | `a::b` is read as a call of the colon hook on the quoted b and on a |
| Words.HexPairReads | src/Scheme.cpp:2496-2514 | `\x` and two hexadecimal digits, capital or small, are the byte of that number |
| Words.EscapeReads | src/Scheme.cpp:2467-2494 | behind a backslash `n`, `t` and `r` are control characters, and any other character is itself |
| Words.TokenSpelt | src/Scheme.cpp:2542-2594 | the spellings of the tokens that are taken off the text, the comment sign `#!` and the vector's `#(` among them; a dot is one before a space, a newline or a tab |
| Words.TokenLookedAt | src/Scheme.cpp:2542-2594 | of the others only a sign is taken, and of an atom nothing |
| Words.DelimitersAre | src/Scheme.cpp:2427-2438 | what ends a word |
| TextPort.InputPort.Inchar | src/Scheme.cpp:2337-2348 | one character; NUL, 0xff and the end read as the end |
| TextPort.InputPort.SkipSpace | src/Scheme.cpp:2530-2539 | the loop stops at the first character that is neither blank nor control |
| TextPort.InputPort.Token | src/Scheme.cpp:2542-2594 | the token and what it consumes |
| TextPort.InputPort.ReadStrUpTo | src/Scheme.cpp:2427-2438 | a word up to a delimiter, which a lone backslash keeps |
| TextPort.InputPort.ReadStrExp | src/Scheme.cpp:2441-2518 | the state machine over escapes |
| TextPort.PrintSlashString | src/Scheme.cpp:2599-2644 | the text of a literal |
| Reader.DatumAgrees | src/Scheme.cpp:5118-5275 | the reading opcodes do what a recursive descent does, for every amount of fuel and above any dump |
| Reader.ReadingDescribed | src/Scheme.cpp:5118-5275 | so returns, errors and endless runs of the reader are exactly those of the descent |
| Comments.LineSkipped | src/Scheme.cpp:5127-5131 | a comment goes on to the first newline, NUL or 0xff, or to the end of the text |
| Comments.CommentSkipped | src/Scheme.cpp:5127-5133 | after a comment line the reader stands where reading what follows it would begin, before a datum and after an element of a list |
| Comments.CommentAtEnd | src/Scheme.cpp:5127-5133 | a comment may run to the end of the text |
| CommentedText.DocTold | src/Scheme.cpp:5118-5246 | for any scanner and any way of writing data that fit together: a text of a datum with comments and blanks between its parts is read as the datum exactly if the comments are where the reader allows them, and is an error otherwise |
| CommentsRead.CommentsReadIff | src/Scheme.cpp:5118-5246 | the same for the machine, the program's scanner and the printer's texts: comments and blanks before a datum, behind a quotation sign, between elements and before a dot or the end of a list change nothing, with exactly these exceptions: one in an empty list or behind the datum after a dot, and a second one before a dot or before the end of a list, are errors |
| CommentsRead.CommentInEmptyList | src/Scheme.cpp:5118-5148 | the least such error: `(;` with the rest of a line and `)` |
| CommentsRead.NothingToRead | src/Scheme.cpp:5119-5126 | where only blanks are left the end-of-file object is read, but from the load port it is an error |
| ReaderEnds.ReadsForEverIff | src/Scheme.cpp:5118-5246 | reading goes on for ever if and only if a walk over the tokens comes, inside a list and before any error, to the end of a text that is not the load port's, or to a NUL in it |
| ReaderEnds.ReadingFailsIff | src/Scheme.cpp:5118-5275 | it ends with an error if and only if the walk breaks off |
| ReaderEnds.ReadingReturnsIff | src/Scheme.cpp:5118-5275 | and with a datum if and only if the walk is complete |
| ReaderEnds.LoadPortReadingEnds | src/Scheme.cpp:5119-5126 | reading from the load port always ends |
| ReaderEnds.OpenParenthesisReadForEver | src/Scheme.cpp:5118-5246 | `(` is read for ever |
| ReaderEnds.MoveShrinks | src/Scheme.cpp:2542-2594 | every move of the walk takes something off the text or brings the next one that does nearer |
| Printer.WritesText | src/Scheme.cpp:5280-5331 | the printing opcodes write the text of any datum and use as many frames as it is deep, leaving the dump untouched |
| Printer.ListText | src/Scheme.cpp:5280-5331 | the text of a list: its elements with one space between them, in parentheses, and what is not a list at its end behind a point |
| Printer.QuotationText | src/Scheme.cpp:5284-5308 | the four abbreviations, and no others |
| Printer.StringText | src/Scheme.cpp:2599-2644 | the quotes around a string, and which characters are escaped and how |
| Parsing.DatumReads | src/Scheme.cpp:5118-5275 | an unambiguous datum is read back whole, at the right place, with the count of parentheses as before |
| Parsing.Misread | src/Scheme.cpp:2569-2575 | an ambiguous datum is never read back |
| ReadWrite.AllFits | src/Scheme.cpp:2542-2594 | the program's scanner and the printer's texts fit together as `Parsing` asks |
| ReadWrite.ReadsBackIff | src/Scheme.cpp:5118-5275 | reading what was written returns the datum to the dump reading began with, with the nesting count restored, if and only if nowhere a `,` is followed by a symbol that begins with `@` |
| ReadWrite.WrittenIsReadable | src/Scheme.cpp:5280-5331 | the printing machine's output, wherever it is put and whatever sets it off, is what `ReadsBackIff` asks for |
| ReadWrite.AmbiguityExists | src/Scheme.cpp:5305-5308 | `(unquote @a)` is written `,@a` |
| TextInterpreter.Read | src/Scheme.cpp:5118-5275 | each reading opcode, through the cursor of a string port, leaves registers, dump, port and nesting count as the reading machine's step says, of which `Reader.DatumAgrees` speaks |
| TextInterpreter.OpRdList | src/Scheme.cpp:5206-5246 | an element joins `args`; a closing parenthesis returns them turned round, a dot saves `OP_RDDOT` |
| TextInterpreter.OpP0List | src/Scheme.cpp:5280-5312 | atoms, abbreviations and opening parentheses, as the printing machine's step says, of which `Printer.WritesText` speaks |
| TextInterpreter.OpP1List | src/Scheme.cpp:5314-5331 | elements after the first, and the end of a proper or dotted list |
| TextInterpreter.ReadToTheEnd | src/Scheme.cpp:5118-5275 | the loop of reading opcodes ends wherever `ReaderEnds` says so, with an error exactly where it says so, and otherwise as the reading machine does |
| TextInterpreter.PrintToTheEnd | src/Scheme.cpp:5280-5331 | the loop of printing opcodes ends for every datum, with its text behind what had been written |
| WriteRead.ReadBack | src/Scheme.cpp:5118-5275 | read through the port from where a datum has been written, what comes is that datum exactly if it is unambiguous, and then the port stands behind it with no parenthesis left open |
| WriteRead.WriteThenRead | src/Scheme.cpp:5118-5331 | writing an unambiguous datum and reading the text gives the datum |
| ExactNumbers.GcdLoop | src/Scheme.cpp:1300-1308 | the loop computes the sign-carrying divisor |
| ExactNumbers.GcdScales | src/Scheme.cpp:1300-1308 | gcd(ka, kb) = k gcd(a, b) for every nonzero k, negative included |
| ExactNumbers.GcdDivides | src/Scheme.cpp:1300-1308 | it divides both numbers |
| ExactNumbers.MkRationalReduces | src/Scheme.cpp:1310-1332 | a cell is in lowest terms and proportional to what it was made from |
| ExactNumbers.Canonical | src/Scheme.cpp:1310-1332 | proportional pairs, whatever their signs, make the same cell |
| ExactNumbers.MinusOneHalf | src/Scheme.cpp:1310-1332 | although the sign may end up with the denominator |
| ExactNumbers.AddIsSum | src/Scheme.cpp:666-689 | the sum as a rational number |
| ExactNumbers.SubIsDifference | src/Scheme.cpp:792-815 | the difference |
| ExactNumbers.MulIsProduct | src/Scheme.cpp:691-714 | the product |
| ExactNumbers.DivIsQuotient | src/Scheme.cpp:716-745 | the quotient: times the divisor it gives the dividend |
| ExactNumbers.MkNumberKeeps | src/Scheme.cpp:1334-1345 | making a cell keeps the value |
| ExactNumbers.NumEqIff | src/Scheme.cpp:866-882 | `num_eq` on cells is equality of rational numbers |
| ExactNumbers.OpAdd | src/Scheme.cpp:4219-4224 | the fold is the sum of all arguments |
| ExactNumbers.OpMul | src/Scheme.cpp:4226-4231 | the fold is their product |
| ExactNumbers.OpSub | src/Scheme.cpp:4233-4244 | `(- a b ...)` is a less the sum of the others; `(- a)` is 0 - a |
| ExactNumbers.OpDiv | src/Scheme.cpp:4246-4262 | `(/ a b ...)` is the number that times all of the others gives a, and `(/ a)` the one that times a gives 1; an error if and only if a divisor is zero |
| AudioBarrier.SlotsDiffer | src/AudioDevice.cpp:215-217 | no two samples of workers, halves and indices share a place in the buffer |
| AudioBarrier.StepKeeps | src/AudioDevice.cpp:208-262 | every step of any of N workers or of the callback keeps the invariant |
| AudioBarrier.RunKeeps | src/AudioDevice.cpp:690-709 | the invariant over all interleavings from `initMTAudio` on |
| AudioBarrier.CountsStayClose | src/AudioDevice.cpp:231-241 | each local count is the signal count or one less, and the done count never exceeds N |
| AudioBarrier.NobodyWritesDuringSum | src/AudioDevice.cpp:436-447 | while the callback sums no worker is in a round and none can begin |
| AudioBarrier.CallHearsOneRound | src/AudioDevice.cpp:424-434 | call k puts out what every worker rendered in round k without latency, and otherwise in round k-1, the first call silence |
| AudioBarrier.WorkersComeToAnEnd | src/AudioDevice.cpp:231-262 | every step of a worker brings the round nearer to its end |
| AudioBarrier.SomebodyCanGo | src/AudioDevice.cpp:448-461 | and while the callback waits some worker can take one |
| AudioProgress.StepLowers | src/AudioDevice.cpp:403-462 | during a call every step of any thread lowers the number of steps to go, the signal's rounds included |
| AudioProgress.CallGoesOn | src/AudioDevice.cpp:448-461 | some thread can always take a step: the callback, unless it waits for a worker, which then can |
| AudioProgress.CallReturns | src/AudioDevice.cpp:403-462 | so in every interleaving a call returns within a number of steps that is known when it begins |
| AudioProgress.EveryCallIsHeard | src/AudioDevice.cpp:403-462 | and every run can be continued until the call has put out its data |
| AudioBuffers.RenderFrames | src/AudioDevice.cpp:242-260 | a worker's round overwrites its half and nothing else |
| AudioBuffers.SumFrames | src/AudioDevice.cpp:424-447 | the summing loops take, for every frame and channel, the sample of each worker from the half that the toggle selects |
| Zones.FitsIff | src/EXTZones.cpp:78-79 | the test for room suffices for every request exactly if the size of the segment is a multiple of 32 or one more |
| Zones.SizeReadsBack | src/EXTZones.cpp:113-115 | the stored size reads back |
| Zones.EightBytes | src/EXTZones.cpp:113-115 | the eight bytes of a size, lowest first, written out as multiples of powers of 256 |
| Zones.BlocksApart | src/EXTZones.cpp:67-122 | blocks since the last reset have no byte in common, across segments too |
| Zones.Zone.constructor | src/EXTZones.cpp:20-47 | an empty zone |
| Zones.Zone.Grow | src/EXTZones.cpp:81-104 | a new segment of at least twice the size; an empty one is replaced; blocks and their headers stay valid |
| Zones.Zone.Malloc | src/EXTZones.cpp:67-122 | a block that is aligned, cleared, inside one segment, apart from all others, with its size in front; the segment stays whenever offset + request + 32 < size, and otherwise a new one begins, twice the larger of the old size and request + 32 and at least 1024; earlier bytes of the zone are as they were |
| Zones.Zone.Take | src/EXTZones.cpp:110-121 | a block in the current segment |
| Zones.Zone.Reset | src/EXTZones.cpp:61-65 | the blocks are given up |
| Zones.Zone.PtrSize | src/EXTZones.cpp:217-220 | the size in the header, for every block since the last reset |
| Zones.Zone.PtrInZone | src/EXTZones.cpp:240-246 | true if and only if a segment contains the pointer |
| Zones.Zone.Destroy | src/EXTZones.cpp:49-59 | every segment is freed once, the oldest first |
| SimpleOpt.CalcMatch | include/SimpleOpt.h:932-985 | -1 exactly for a perfect match, a positive length exactly for a proper beginning, with as many hyphens |
| SimpleOpt.LookupOption | include/SimpleOpt.h:896-924 | the first perfect match, otherwise the only partial one; several are an error of their own |
| SimpleOpt.LookedUpOnce | include/SimpleOpt.h:896-924 | that determines the answer |
| SimpleOpt.SameIff | include/SimpleOpt.h:991-1003 | when case is ignored, letters of the English alphabet match in either case, and nothing else does |
| SimpleOpt.CaseForms | include/SimpleOpt.h:942-948 | which flag decides that: for a hyphen and a letter, for words without a hyphen, and for all others |
| SimpleOpt.NameAndValue | include/SimpleOpt.h:657-664 | an option with an equals sign is its name, the first such sign, and its value |
| SimpleOpt.Classify | include/SimpleOpt.h:645-707 | what an argument is: option, clump, error or file |
| SimpleOpt.ClassifiedOnce | include/SimpleOpt.h:645-707 | an argument is of one kind only |
| SimpleOpt.ListedKind | include/SimpleOpt.h:657-666 | an option of the table is found whatever its form, with what is behind its equals sign |
| SimpleOpt.UnlistedKind | include/SimpleOpt.h:666-707 | of the rest: one hyphen and two characters or more without an equals sign may be a letter with its argument or else a clump; otherwise a hyphen makes an error, unless errors are off, and anything else is a file |
| SimpleOpt.ArrangedIsPermutation | include/SimpleOpt.h:861-892 | however it is arranged, `argv` holds the pointers of the command line |
| SimpleOpt.PassedOver | include/SimpleOpt.h:861-892 | a shuffle keeps files and the rest in their orders |
| SimpleOptReports.ToldOnce | include/SimpleOpt.h:607-783 | at any time there is one thing to report and one way to have looked at the arguments, or nothing to report |
| SimpleOptReports.ClumpOnce | include/SimpleOpt.h:819-859 | a clump reports one letter at most, and none if all its letters are unknown and errors are off |
| SimpleOptReports.UnknownLetterIff | include/SimpleOpt.h:829-840 | a letter of a clump is in the table exactly if an entry is a hyphen and that letter |
| SimpleOptParser.CSimpleOpt.constructor | include/SimpleOpt.h:562-604 | all arguments are yet to be looked at, except the program's name |
| SimpleOptParser.CSimpleOpt.Copy | include/SimpleOpt.h:530-537 | an ascending copy within one array |
| SimpleOptParser.CSimpleOpt.ShuffleArg | include/SimpleOpt.h:861-892 | the elements go to the end and the tail moves down |
| SimpleOptParser.CSimpleOpt.Stop | include/SimpleOpt.h:787-792 | all remaining arguments are files |
| SimpleOptParser.CSimpleOpt.NextClumped | include/SimpleOpt.h:819-859 | id, text, argument and error that are shown of a letter of a clump, and the letters left |
| SimpleOptParser.CSimpleOpt.MultiArg | include/SimpleOpt.h:1009-1039 | the next n arguments exactly if there are so many and none looks like an option; otherwise which of the two errors |
| SimpleOptParser.CSimpleOpt.TakeOption | include/SimpleOpt.h:709-771 | id, text, argument and error that are shown of an option or an error, whose value is cut off in `argv` |
| SimpleOptParser.CSimpleOpt.Next | include/SimpleOpt.h:607-783 | true means that something is shown: of the clump in hand its first letter, or first known one if errors are off; otherwise of the first argument that is neither a file nor a clump without a known letter, by its kind: id and text of the entry found, its argument (with a separate one the next on the line, or one of two errors), or the invalid option; false means that all the rest are such; `argv` stays options, rest and files, each in order; true lowers a lexicographic measure of arguments and letters |
| SimpleOptParser.CSimpleOpt.NextToTheEnd | include/SimpleOpt.h:607-783 | the loop ends, with the files in their order and `argv` a permutation |
| Slip.Receiver.ParseOscSlipData | src/OSC.cpp:531-557 | the parsing loop and its return codes |
| Slip.Receiver.OnRead | src/OSC.cpp:729-776 | what one read does to a socket |
| Slip.FrameDelivers | src/OSC.cpp:531-557 | a frame read at once delivers its payload |
| Slip.FrameWrittenOut | src/OSC.cpp:531-557 | the protocol's bytes: 192 at both ends, 219 220 for 192 and 219 221 for 219 |
| Slip.EscapedOtherwise | src/OSC.cpp:535-556 | behind 219 any other byte makes the packet bad, but a second 219 changes nothing and 192 ends the packet |
| Slip.RubbishIgnored | src/OSC.cpp:733-746 | what comes before the first 192 is not looked at |
| Slip.AnySplitDelivers | src/OSC.cpp:729-776 | so does a frame cut into any reads, within an escape too: the payload comes once and the socket is idle |
| Slip.AllArriveIff | src/OSC.cpp:729-776 | of any sequence of frames in any reads, exactly the payloads arrive, in order, if and only if no read goes on beyond the end of a frame |
| Slip.TwoFrames | src/OSC.cpp:729-776 | of two frames both arrive if and only if a read ends where the first frame ends |
| Slip.RestOfReadIsLost | src/OSC.cpp:756-761 | what comes behind a frame in the same read is lost |
| OscArguments.IntegerReadsBack | src/OSC.cpp:967-1003 | 32-bit and 64-bit integers |
| OscArguments.StringReadsBack | src/OSC.cpp:844-884 | NUL-free strings without quotes of up to 4096 characters |
| OscArguments.IntegersWrittenOut | src/OSC.cpp:967-1003 | four or eight bytes, the highest first, in two's complement |
| OscArguments.StringsWrittenOut | src/OSC.cpp:844-857 | the characters and one to four zeros, up to a multiple of four |
| OscArguments.LongStringIsCut | src/OSC.cpp:858-865 | longer strings are cut to 4096 |
| OscArguments.ArgumentDecodes | src/OSC.cpp:242-339 | decoding the tags and bytes of an argument gives its text, and the position moves by exactly its length |
| OscArguments.MessageDecodes | src/OSC.cpp:242-339 | for nested non-empty lists of integers and strings the call has the same arguments, and the body is used up |
| OscArguments.MessageWrittenOut | src/OSC.cpp:1036-1087 | tags, body and call of a message with a string, an integer and a list |
| OscArguments.DroppedIff | src/OSC.cpp:269-335 | which tags, and which bodies that are too short, drop the message |
| OscMessage.Writer.SetString | src/OSC.cpp:844-857 | the string with its padding behind what there was |
| OscMessage.Writer.SetInteger | src/OSC.cpp:967-979 | the integer's bytes behind what there was |
| OscMessage.Writer.ProcessArgs | src/OSC.cpp:1036-1087 | tags and body of a list of arguments |
| OscMessage.SendSchemeCall | src/OSC.cpp:269-335 | the loop over the tags |
| OscMessage.GetMessageLength | src/OSC.cpp:242-267 | the length that the tags describe |
| OscMessage.RoundTrip | src/OSC.cpp:1036-1087 | sending and receiving together |
| Base64.DecodesBack | src/UNIV.cpp:212-273 | decoding the encoding of any non-empty byte sequence gives the bytes and their number, in all three padding cases |
| Base64.GroupDecodes | src/UNIV.cpp:222-233 | a group of three bytes |
| Base64.DigitInAlphabet | src/UNIV.cpp:97-104 | the alphabet |
| Base64.GroupBits | src/UNIV.cpp:222-233 | the digits of three bytes are their bits, six at a time |
| Base64.EncodingWrittenOut | src/UNIV.cpp:212-239 | one byte gives two digits and `==`, two bytes three digits and `=`, three bytes four digits, and what comes after three bytes is encoded by itself |
| Base64.EndsInZeros | src/UNIV.cpp:235-236 | padding stands for zero digits, and digits are never padding |
| Base64.Base64Encode | src/UNIV.cpp:212-239 | the loop writes the encoding |
| Base64.Base64Decode | src/UNIV.cpp:242-273 | the loop writes what is decoded; nothing if the length is no multiple of four |

## Left out

Hypotheses and weaker statements, by member:

- TreadmillSafety.NothingReachableIsFree: for runs in which every flip starts with dark registers; that an insertion finds two ecru cells, that waits end by signals only, and that the link an allocation has read is still right when it is used, are guards of the steps
- TreadmillSafety.RunKeeps: the same
- TreadmillRun.StepKeeps: the test for a free cell and the reading of its link are one step, and so are the writing of `treadmill_free` and the colouring of the cell
- TreadmillRing.Treadmill.Insert: an insertion of a free cell, which the program reports as an error, is not modelled
- TreadmillRing.Treadmill.AdjustPointers: the count of insertions is one for all Scheme processes of the program (src/Scheme.cpp:171); the model is of one process
- TreadmillRing.Treadmill.GrowIfBusy: memory does not run out, and the alignment of new memory is not modelled
- TreadmillRing.Treadmill.MarkRoots: for roots beside which one more cell is ecru, so that every insertion finds two
- TreadmillRing.Treadmill.Flip: for registers that hold black cells, one black cell beside them, and a growth that is not by one cell
- TreadmillRing.Treadmill.GetCell: the same, where it flips
- TreadmillHandshake.WaitEnds: that the scanner thread is scheduled at all is not modelled
- SchemeTheorems.ReturnsIffEvaluates: for the core language (variables, `quote`, `if`, `lambda`, `define`, `set!`, `begin`, `let`, named `let`, `let*`, `letrec`, `cond`, `and`, `or`, application) with nine primitives standing for all, `+`, `-` and `=` on integers among them; keywords are known by their names
- SchemeEvalCycle.EvalToTheEnd: for expressions that the evaluator finishes; of the others `SchemeTheorems.RunsForEverIffNoFuelIsEnough` and `SchemeEvalCycle.EvalCycle` speak
- SchemeInterpreter.FindSlotInEnv: the hashed vector of the global frame is a list of slots like any other frame
- SchemeInterpreter.OpEval: an unbound symbol is an error; the program returns a symbol with dots in it that names a type or function of its compiler (src/Scheme.cpp:3548)
- SchemeInterpreter.OpApply: foreign functions, macros, promises and continuations are errors here
- SchemeInterpreter.OpDefineSet: the text that `define` makes of a name for debugging is not modelled; making it throws for a value form whose second element prints as the empty text, as in `(define x (f ""))` (src/Scheme.cpp:3713-3726)
- Continuations.Reenterable: for frames whose arguments are proper lists and whose code is a proper list or a symbol; without this `list_copy` shares cells
- DumpStack.Interpreter.DumpStackCopy: the block of memory that keeps a saved dump is a sequence
- TextInterpreter.Read: vectors and the `#` reader hook are failures
- TextInterpreter.OpP0List: vectors and environments are not printed
- TextInterpreter.OpP1List: nor is a vector as the tail of a list
- CommentsRead.CommentsReadIff: for data that the printer writes and `ReadWrite.ReadsBackIff` gives back; comment lines hold no NUL and no 0xff, of which `Comments.LineSkipped` speaks
- Words.FractionIsLiteral: the values of reals and ratios that are read are not modelled; such words stay literal text
- Reader.DatumAgrees: vectors and the `#` reader hook are failures; at the end of the load port the program leaves the interpreter, which is a failure here
- AtomRoundTrip.SymbolReads: for ASCII names that the reader takes for themselves
- TextPort.InputPort.ReadStrUpTo: the program's buffer for a word has no bound that it checks, and the model has no buffer here
- ReadWrite.ReadsBackIff: for data of pairs, the empty list, booleans, integers of 64 bits, characters 0 to 127, NUL-free strings that fit the buffer, and such symbols; rationals, reals and the notations `#o`, `#d`, `#x`, `#b` and `#\x` are read as literal text
- ExactNumbers.OpDiv: integers are unbounded, reals are left out, and being zero is tested on the integer where the program tests its conversion to a double, which is the same for 64 bits
- AudioBarrier.RunKeeps: atomics are sequentially consistent, the number of workers does not change, and `initMTAudio` starts from a signal count of zero
- Zones.Zone.Malloc: for initial sizes that are multiples of 32, requests that are multiples of 16 and sizes below 2^31; memory does not run out, and the mutex is not modelled
- Zones.Zone.constructor: for sizes that are multiples of 32; for others `Zones.FitsIff` says whether the test for room suffices
- Zones.Zone.Grow: requests are multiples of 16; older segments are a sequence instead of linked zone records
- SimpleOptParser.CSimpleOpt.constructor: as for `Next`
- SimpleOptParser.CSimpleOpt.Next: for a command line with the program's name, or with all arguments in use; the switch from slashes to hyphens on Windows is not modelled
- SimpleOptParser.CSimpleOpt.Copy: `memcpy` between overlapping ranges is taken to copy in ascending order
- SimpleOptParser.CSimpleOpt.ShuffleArg: the limit on the number of arguments is not modelled
- OscArguments.MessageDecodes: for non-empty lists of integers and strings, nested; an empty list advances by the length of the argument before it, and other kinds of arguments are skipped
- OscMessage.Writer.ProcessArgs: reals, vectors, symbols and empty lists are not among the arguments
- OscMessage.GetMessageLength: floats, doubles and time stamps are not among the tags
- OscMessage.SendSchemeCall: floats, doubles and time stamps are not among the tags; the sizes of the program's buffers are not modelled
- Base64.Base64Decode: characters outside the alphabet stand for 0, where the program reads a table entry that is not set; the empty text, for which the program reads in front of its argument, is not modelled

Not modelled:

- capturing a continuation, `OP_SAVE_FORCED` and `OP_PUT` beside the collector: they store without a barrier
- `reverse_in_place` beside the collector: it writes links before its one barrier; its effect on lists is in `CellLists`
- macros, `delay` and promises, `case`, `cons-stream`, `apply`, `eval`, foreign functions, and symbols that LLVM resolves
- `call/cc` in the evaluator: continuations are modelled over cells, in `Continuations`
- finalizers, `_debugger` and `_size` fields, tracing, error hooks, timeouts, files
- printing of vectors, of real numbers and of procedures
- floating point, exponents, transcendental functions, and the ordering of rationals, which goes through doubles
- the buffered variant of the audio workers, PortAudio, and the DSP closures, which are functions of worker, round and sample here
- `llvm_zone_copy_ptr`, the stack of zones, and zones of sizes that are not aligned
- accepting and closing sockets; OSC floats, doubles and time stamps
- `cname_encode` and `cname_decode`, a variant of base64
- `TaskScheduler` and `PriorityQueue`, the LLVM JIT, regular expressions, the REPL
