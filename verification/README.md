# Verified models of the lab repository

This project models the parts of the repository that have something to prove, in Dafny 4.11, and proves properties of
the models. Verify with `dafny verify dfyconfig.toml`.

- **Nemo** (`Nemo*.dfy`, `Runs.dfy`): a nondeterministic language with assignments, tests, sequences, choices, loops and
  prints; the desugaring of `if` and `while`; the type checker; the translator to flat code in which every instruction
  has a list of labels to go to; the machine for that code and the runner that steps all its configurations at once; and
  the printer and the grammar of machine programs. The main result is that the translator preserves meaning in both
  directions. The repository has no interpreter for the source language, so its meaning is the usual one of regular
  programs (`NemoSem.Exec`): a test filters, a sequence composes, a choice is a union, a loop is any finite number of
  repetitions, and what is printed is a trace. Expressions mean what the machine computes for them, and what
  that is is stated on its own. The repository's example program is proved to compute greatest common divisors.
- **Rational functions** (`Rational*.dfy`, `PowerSums.dfy`, `FlowTree.dfy`, `Ints.dfy`, `Strings.dfy`): the normaliser
  that turns an expression into a quotient of two multivariate integer polynomials. It keeps values, and it has a result
  for exactly those expressions that have, like all their parts, a value somewhere that is not zero; the result is reduced.
- **Line sort** (`LinkedList.dfy`, `LineSort.dfy`): the bubble sort that relinks the nodes of a list in place, behind one
  sentinel for each pass. It is proved equal to a sort on sequences of nodes, and that sort is the stable sort.
- **Alternating threads** (`Alternation.dfy`, `AlternationRuns.dfy`): two threads that hand three mutexes from one to the
  other, as a state machine over single calls. The results are about every interleaving and every number of lines.
- **Bisection** (`Bisection.dfy`, `Reals.dfy`): the search for a bracket and the halving of it, for every cubic.
- **Sweep** (`Sweep.dfy`): the sweep for tridiagonal systems, and exactly when it divides by nothing that is zero.
- **Caching proxy** (`Proxy*.dfy`): the buffer of one connection, the cache element it fills or reads, and the loops of
  the handler around them. What is written to either side is a first part of what has been taken for it, with nothing
  doubled or changed. A client that is served from the cache has a first part of the element at every moment; whether it
  ever gets the rest depends on when its thread comes, goes to sleep and leaves, and the project says exactly how.
- **Symbolic derivatives** (`Symbolic*.dfy`, `Tangents.dfy`, `TangentRules.dfy`): evaluation, simplification and
  differentiation. The derivative the program computes is the slope of the tangent of the expression it started with.

Some properties that one could expect of the code are false of it, and the project says when they hold:

- The runner does not find every end of a program: when one run is complete while another is not, it steps the complete
  one out of the program. It stops by itself exactly when all runs end together (`NemoRunner.RunnerStopsExactly`; for
  each round `NemoRunner.RunnerBreaksExactly`), and on structured programs whenever the program can end
  (`NemoStructured.StructuredEnds`). A choice of unequal lengths breaks it (`NemoStructured.UnevenChoiceBreaks`).
- The normaliser has no result for some expressions: it has one exactly when the expression and each of its parts have a
  value somewhere that is not zero (`RationalZeros.NormalFormExactly`). So a difference `e - e` never has one
  (`RationalCorrect.SelfDifferenceFails`).
- The search for a bracket does not end for every cubic: it ends from every start exactly when the cubic rises or is zero
  (`Bisection.Equation.SearchEndsExactly`).
- The sweep can divide by zero, even for a system with exactly one solution (`Sweep.SolvableNotRegular`). It gets through
  exactly when no leading determinant is zero (`Sweep.ThroughExactly`).
- The grammar of Nemo has a remainder operator, but it always evaluates to zero (`NemoValues.OtherOperators`).
- Simplifying removes double negations exactly unless a negation is taken away from zero (`SymbolicNormal.TidyExactly`):
  that leaves one (`SymbolicNormal.NegationLeft`).
- Simplifying can give a value to an expression that has none (`Symbolic.SimplifyDefinesMore`). The simplified form has
  the value of the expression exactly where the expression has one or nothing is left that has one
  (`Symbolic.SimplifyExactly`).
- Where a heading ends can depend on how the bytes arrive (`ProxyParser.EndHeadingDependsOnArrival`). The end that is
  found stays exactly when a standard empty line has arrived (`ProxyParser.EndHeadingStable`).
- A client that is served from the cache can be left without bytes, in two ways. Its thread checks the element and goes to
  sleep in separate steps, the signal takes another mutex, and so a signal in between is lost (`ProxySleep.BytesLost`).
  And an element can be found before the server is marked as connected, which the thread takes for a server that has left
  (`ProxyLeaving.TooEarly`). When its thread has come to rest and every change has been signalled, a client lacks bytes
  exactly when its thread has slept through some or has left before some (`ProxyLeaving.LacksExactly`): some came between
  the check for bytes and the sleep (`ProxySleep.MissedExactly`), or after a thread had left that had checked the server
  before it was marked as connected (`ProxyLeaving.LeftExactly`). When it is signalled that the server has left, the
  thread ends, with everything sent, exactly unless it is at a check for bytes that finds none, or between that and its
  sleep (`ProxyLeaving.LeavesExactly`).

## Model

| member | source | states |
|---|---|---|
| NemoLayout.Layout | MTK/block3/lab12/nemo/nemo_transl.flow:59-99 | for every statement without empty sequences or choices: all labels of its code lie between 0 and its length, some instruction goes to its length, and the largest label, by which the translator measures code, is its length |
| NemoLayout.MaxVmLabelIsLength | MTK/block3/lab12/nemo/nemo_transl.flow:11-21 | the largest label of code with a sound layout is the number of its instructions |
| NemoLayout.AddIsPlace | MTK/block3/lab12/nemo/nemo_transl.flow:23-33 | adding to all labels of a block moves the block and leaves its exit right behind it |
| NemoLayout.ReplaceIsPlace | MTK/block3/lab12/nemo/nemo_transl.flow:35-45 | adding and then replacing the exit label moves the block and redirects its exit, and changes nothing else |
| NemoLayout.TranslSeqShape | MTK/block3/lab12/nemo/nemo_transl.flow:64-70 | the fold over a sequence puts the blocks one after the other, each leaving to the start of the next |
| NemoLayout.TranslChoiceShape | MTK/block3/lab12/nemo/nemo_transl.flow:71-89 | the fold over a choice puts a jump to all starts first, and then the blocks, all leaving to the common end |
| NemoLayout.TranslLoopShape | MTK/block3/lab12/nemo/nemo_transl.flow:90-97 | a loop is a jump to the body or to the end, and the body leaves back to the jump |
| NemoPlacement.SeqBlock | MTK/block3/lab12/nemo/nemo_transl.flow:64-70 | a sequence placed anywhere in a program consists of its placed members, each leaving to the next and the last one to the exit |
| NemoPlacement.ChoiceBlock | MTK/block3/lab12/nemo/nemo_transl.flow:71-89 | a choice placed anywhere in a program jumps to its placed alternatives, which all leave to the exit |
| NemoPlacement.LoopBlock | MTK/block3/lab12/nemo/nemo_transl.flow:90-97 | a loop placed anywhere in a program jumps to its body or the exit, and the body leaves back to the jump |
| NemoCorrect.Forward | MTK/block3/lab12/nemo/nemo_transl.flow:59-98 | every source run is a machine run of the code with the same states and trace, also when the code is moved and its exit redirected inside a larger program |
| NemoCorrect.Backward | MTK/block3/lab12/nemo/vnemo_run.flow:23-52 | a machine run that enters the code of a statement and is outside later has first left it through its exit, and what it did until then is a source run |
| NemoCorrect.ForwardCorrect | MTK/block3/lab12/nemo/nemo_transl.flow:6-8 | every source run is a machine run from label 0 to the length of the code |
| NemoCorrect.BackwardCorrect | MTK/block3/lab12/nemo/nemo_transl.flow:6-8 | every machine run from label 0 to the length of the code is a source run, with nested loops and choices |
| NemoCorrect.TranslatorCorrect | MTK/block3/lab12/nemo/nemo_transl.flow:59-98 | the translator preserves meaning: initial state, trace and final state of the runs of a statement and of its code are the same |
| NemoCores.TranslKeeps | MTK/block3/lab12/nemo/nemo_transl.flow:23-98 | apart from labels, translated code is made of the statement's own assignments, prints and tests and of unconditional jumps |
| NemoValues.Arithmetic | MTK/block3/lab12/nemo/vnemo_run.flow:89-104 | on operands with integer values the operators are those of the integers |
| NemoValues.Division | MTK/block3/lab12/nemo/vnemo_run.flow:89-97 | division cuts off towards zero: the quotient times the divisor is as near to the dividend as it can be without going beyond it; division by zero stops the machine |
| NemoValues.OtherOperators | MTK/block3/lab12/nemo/vnemo_run.flow:90-96 | every other operator gives zero, also the remainder, which the grammar has |
| NemoValues.Conditions | MTK/block3/lab12/nemo/vnemo_run.flow:61-70 | the six conditions are the six orders of the integers |
| NemoValues.ChangedArray | MTK/block3/lab12/nemo/vnemo_run.flow:134-187 | a changed array has the new value at the index and the old ones elsewhere; it grows by a change at its end, has no value after one further out, and is the same after one at a negative index |
| NemoValues.OperatorFailures | MTK/block3/lab12/nemo/vnemo_run.flow:60-131 | exactly when an operation or a condition has a value, and when it stops the machine |
| NemoValues.ArrayFailures | MTK/block3/lab12/nemo/vnemo_run.flow:132-187 | exactly when a look into an array or a change of one has a value, and when it stops the machine |
| NemoValues.StartsWith | MTK/block3/lab12/nemo/vnemo_run.flow:204-211 | a program starts with the given bindings as they are, with zero or the empty array for every other declared variable by its first declaration, and with nothing else |
| NemoGcd.Test0Runs | MTK/block3/lab12/test0.nm:1-10 | the example program can end exactly when its variables are equal or both positive, and then it ends, having printed nothing, with both at their greatest common divisor, or, when equal, as they were |
| NemoGcd.Test0ComputesGcd | MTK/block3/lab12/test0.nm:1-10 | from positive numbers the translated example has complete machine runs, and all of them end with both variables at the greatest common divisor |
| NemoDesugar.ParsedIsNonEmpty | MTK/block3/lab12/nemo/nemo_ast.flow:89-102 | what the parser's actions build has no empty sequence or choice |
| NemoDesugar.NegOpIsComplement | MTK/block3/lab12/nemo/nemo_ast.flow:77-84 | the negated operator is the complement on all integers exactly for the six comparisons of the grammar |
| NemoDesugar.NegCond | MTK/block3/lab12/nemo/vnemo_run.flow:61-87 | a negated condition holds exactly when the condition evaluates to false |
| NemoDesugar.IfElseMeaning | MTK/block3/lab12/nemo/nemo_ast.flow:91-96 | the desugared if has exactly the runs of an ordinary if with an else |
| NemoDesugar.WhileMeaning | MTK/block3/lab12/nemo/nemo_ast.flow:97-102 | the desugared while has exactly the runs of an ordinary while |
| NemoDesugar.UnknownOperatorHasNoElse | MTK/block3/lab12/nemo/nemo_ast.flow:77-84 | with an operator that is not one of the six no condition ever holds, it is false of any two integers, and yet an if on it takes neither branch |
| NemoRunner.FrontierExact | MTK/block3/lab12/nemo/vnemo_run.flow:204-218 | as long as the runner goes on, its set after k rounds is exactly what single runs of k steps reach |
| NemoRunner.CompleteRunsTakeAllRounds | MTK/block3/lab12/nemo/vnemo_run.flow:212-218 | when the runner stops after n rounds every complete run has exactly n steps |
| NemoRunner.RunnerComplete | MTK/block3/lab12/nemo/vnemo_run.flow:204-218 | when the runner of a translated statement stops, all its configurations are at the end and their states are exactly the states in which the statement can end |
| NemoRunner.RunnerBreaksExactly | MTK/block3/lab12/nemo/vnemo_run.flow:212-218 | an unfinished runner fails in its next round exactly when some run of the same length is already complete or is about to evaluate something that aborts |
| NemoRunner.RunnerStopsExactly | MTK/block3/lab12/nemo/vnemo_run.flow:204-218 | for every program and start: the runner stops by itself exactly when there is a number of steps after which all runs are complete, and before which none is complete or about to abort |
| NemoRunner.LabelsInRange | MTK/block3/lab12/nemo/vnemo_run.flow:23-52 | the machine never reaches a label outside 0 to the length of the code |
| NemoStructured.StructuredIsTame | MTK/block3/lab12/nemo/nemo_transl.flow:71-97 | in the code of a structured program every instruction has one place to go, or jumps to a test and its negation |
| NemoStructured.StructuredDeterministic | MTK/block3/lab12/nemo/nemo_ast.flow:77-102 | for programs of assignments, prints, sequences, if and while the runner holds at most two configurations, two only as a test and its negation on one state, a finished one is alone, and a round fails only when an evaluation aborts |
| NemoStructured.StructuredEnds | MTK/block3/lab12/nemo/vnemo_run.flow:204-218 | a structured program can end in a state exactly when the runner stops with that state alone |
| NemoStructured.UnevenChoiceBreaks | MTK/block3/lab12/nemo/vnemo_run.flow:212-218 | without structure the runner fails on a program that can end: a choice with alternatives of different lengths |
| NemoTypes.EvalNmTypeExact | MTK/block3/lab12/nemo/nemo_typecheck.flow:61-147 | the checker finds the one type the typing rules give, and reports something exactly when it finds none |
| NemoTypes.TypecheckNmStatExact | MTK/block3/lab12/nemo/nemo_typecheck.flow:22-59 | a statement is checked without reports exactly when it obeys the typing rules, in spite of the checks that are skipped after a failed one |
| NemoTypes.TypedeclsExact | MTK/block3/lab12/nemo/nemo_typecheck.flow:9-16 | declarations are collected without reports exactly when no name occurs twice, and then into exactly what they say |
| NemoTypes.TypecheckNmProgramExact | MTK/block3/lab12/nemo/nemo_typecheck.flow:18-20 | a program is checked without reports exactly when it has no duplicate declaration and obeys the typing rules |
| NemoTypes.EvalSafe | MTK/block3/lab12/nemo/vnemo_run.flow:89-195 | the evaluation of a well-typed expression in a well-typed state gives a value of its type, or fails on an index out of range or a division by zero |
| NemoTypes.TypeSafety | MTK/block3/lab12/nemo/vnemo_run.flow:204-218 | without reports, and from well-typed initial bindings, every reachable configuration is in the program, has a well-typed state, and its instruction can fail on an index or a division by zero only |
| NemoTypes.TranslWellTyped | MTK/block3/lab12/nemo/nemo_transl.flow:59-98 | the code of a well-typed statement is well typed |
| NemoRoundTrip.Nat2sDigits | MTK/block3/lab12/lingo/vnemo.lingo:25 | printed numbers are digits and read back as the number |
| NemoRoundTrip.ExpBack | MTK/block3/lab12/lingo/vnemo.lingo:14-28 | a printed expression is read back, before anything that can follow it; names that begin with a keyword are no exception |
| NemoRoundTrip.GotoBack | MTK/block3/lab12/lingo/vnemo.lingo:12 | a printed list of labels is read back, also an empty one |
| NemoRoundTrip.StatBack | MTK/block3/lab12/nemo/vnemo_ast.flow:15-24 | a printed and numbered instruction is read back as that instruction and no other |
| NemoRoundTrip.BodyBack | MTK/block3/lab12/nemo/vnemo_ast.flow:26-29 | the printed instructions are read back in order, to the end of the text |
| NemoRoundTrip.DeclsBack | MTK/block3/lab12/nemo/nemo_ast.flow:37-46 | the printed declarations are read back, and where they end is not mistaken for another one |
| NemoRoundTrip.ProgramBack | MTK/block3/lab12/nemo/vnemo_ast.flow:26-35 | reading a printed machine program gives the program back, for lower-case names, literals that are not negative and the operators of the grammar |
| NemoRoundTrip.CompiledProgramBack | MTK/block3/lab12/nemo/vnemo_ast.flow:26-35 | every program translated from parsed source can be printed and read back |
| NemoLines.ProgramLines | MTK/block3/lab12/nemo/vnemo_ast.flow:26-29 | a printed program has a line for each declaration, an empty line, and a line for each instruction, which begins with the number of the instruction and reads as that instruction |
| NemoLines.PrintedLabels | MTK/block3/lab12/lab12.flow:25-26 | in the text of a translated program each label that an instruction goes to stands in front of exactly one line, that of the instruction it means, or is the number of all instructions |
| RationalValue.MergeMonomial | MTK/block2/lab9/lab9.flow:67-69 | the product of two monomials has the product of their values |
| RationalValue.MultPolynomsValue | MTK/block2/lab9/lab9.flow:186-196 | the nested folds multiply values |
| RationalValue.SumPolynomsValue | MTK/block2/lab9/lab9.flow:182-184 | the merge of two polynomials adds values |
| RationalNormal.SortedIsCanonical | MTK/block2/lab9/lab9.flow:122-135 | monomials with the same exponents in different orders become the same monomial |
| RationalNormal.SortedContent | MTK/block2/lab9/lab9.flow:122-135 | sorting a monomial keeps its exponents, and sorting it again changes nothing |
| RationalNormal.FilterPolynomKeeps | MTK/block2/lab9/lab9.flow:115-147 | merging equal monomials and dropping zeros keeps the value everywhere |
| RationalNormal.FilterEmptyExactly | MTK/block2/lab9/lab9.flow:115-147 | nothing is left after filtering exactly when the coefficients of equal monomials all add up to zero |
| Rational.ContentDivides | MTK/block2/lab9/lab9.flow:149-152 | the content of a polynomial without zero coefficients divides them all and is not zero |
| Rational.DividedHasContent | MTK/block2/lab9/lab9.flow:154-160 | dividing by a divisor of the content is exact and leaves a polynomial that has a content |
| RationalCorrect.NormaliseStands | MTK/block2/lab9/lab9.flow:87-97 | filtering, dividing by the common content and the shortcut for equal polynomials keep the value that a quotient stands for |
| RationalCorrect.ValuePreserved | MTK/block2/lab9/lab9.flow:71-98 | where no divisor of the expression is zero, the denominator of its normal form is not zero and the numerator is the value times it |
| RationalReduced.NormaliseExactly | MTK/block2/lab9/lab9.flow:87-97 | a numerator that is after filtering k > 0 times the denominator gives k over 1; any other quotient is divided by a whole number so that only 1 and -1 divide all coefficients of the result |
| RationalReduced.ResultInNormalForm | MTK/block2/lab9/lab9.flow:71-98 | the result for an expression has sorted terms, none twice and none zero, is reduced, and its numerator is a positive multiple of its denominator only over 1 |
| RationalCodes.TermsNonzero | MTK/block2/lab9/lab9.flow:115-147 | a polynomial that filtering has left with a term is not zero everywhere: it is not zero at every valuation that spreads the variables far enough |
| RationalZeros.NormalFormExactly | MTK/block2/lab9/lab9.flow:71-98 | an expression has a normal form exactly when it and each of its parts have a value somewhere that is not zero, and then one valuation serves them all |
| RationalCorrect.SelfDifferenceFails | MTK/block2/lab9/lab9.flow:149-152 | the difference of an expression with itself never has a normal form |
| LinkedList.List.InsertHead | OS/list/list.c:3-12 | a new node in front of the same chain |
| LinkedList.List.RemoveHead | OS/list/list.c:14-19 | the chain without its first node |
| LinkedList.List.FreeMemory | OS/list/list.c:57-63 | the loop ends with an empty list |
| LinkedList.InsertAfter | OS/list/list.c:21-32 | a chain with a new node right after the given one, without cycles |
| LinkedList.InsertList | OS/list/list.c:41-55 | all nodes of the second list in between the given node and what followed it, the second list empty, without cycles |
| LinkedList.Swap | OS/list/list.c:65-70 | the two nodes after the given one have changed places, and go on where they went on |
| LineSort.SwapInChain | OS/list/list.c:65-70 | exchanging two neighbours of a chain leaves a chain of the same nodes with the two exchanged |
| LineSort.SortPass | OS/lab17work.c:110-125 | one pass behind a new sentinel leaves the chain that bubbling gives, and returns its first node |
| LineSort.SortCounted | OS/lab17work.c:106-126 | all passes, each one comparison shorter than the one before |
| LineSort.SortLines | OS/lab17work.c:91-131 | the thread's round counts and sorts: the list holds its own nodes in the order of the sort, one sentinel per pass was made, and no node is a sentinel or points to one |
| LineSort.SortedNodesStable | OS/lab17work.c:106-126 | the sort leaves the nodes sorted by the comparison, loses none, and keeps nodes with the same line in their order |
| LineSort.StableSortUnique | OS/lab17work.c:106-126 | a sorted list is fixed by what it keeps for every line, so the result is the stable sort |
| LineSort.BubbleMax | OS/lab17work.c:113-123 | after j comparisons the nodes beyond are untouched, and the last one seen is a greatest one |
| Strings.StrcmpOrder | OS/lab17work.c:114 | the comparison of the C library decides the lexicographic order |
| AlternationRuns.EveryInterleaving | OS/lab11.c:56-84 | in every interleaving, at every moment: no lock or unlock has failed, and what is printed is a first part of parent and child by turns; at the end it is all of it |
| Alternation.StepKeepsInv | OS/lab11.c:62-70 | every single call keeps who has which mutex, how far apart the threads are and what is printed |
| AlternationRuns.NoDeadlock | OS/lab11.c:126-155 | some thread can move exactly as long as a thread has not finished |
| AlternationRuns.StepWorks | OS/lab11.c:137-152 | every step but a repeated attempt at the second mutex brings the end nearer, and an attempt succeeds only before the child's first lock |
| AlternationRuns.InterleavingsEnd | OS/lab11.c:56-84 | the length of every interleaving is bounded, apart from two steps for each early attempt |
| AlternationRuns.CanFinish | OS/lab11.c:126-155 | every interleaving can go on to the end |
| Bisection.Equation.Lipschitz | vich_mat/lab1_VICH_MAT/src/main/java/Equation.java:124-130 | how much the cubic can differ between two points of a bounded interval |
| Bisection.Equation.MiddleIsSmall | vich_mat/lab1_VICH_MAT/src/main/java/Equation.java:73-74 | in a bracket with a sign change the value in the middle is bounded by half the width |
| Bisection.Equation.NotYet | vich_mat/lab1_VICH_MAT/src/main/java/Equation.java:76-86 | as long as the loop goes on, the halvings made so far were not enough |
| Bisection.Equation.Bisect | vich_mat/lab1_VICH_MAT/src/main/java/Equation.java:67-99 | for every cubic, accuracy and bracket with a sign change the loop ends with a point of the bracket whose value is within the accuracy, after no more iterations than the width and the steepness call for |
| Bisection.Equation.FindLineSegment | vich_mat/lab1_VICH_MAT/src/main/java/Equation.java:101-122 | the last two points of the search, which is the first change of sign on its way, in the order in which they were visited |
| Bisection.Equation.RisingEnds | vich_mat/lab1_VICH_MAT/src/main/java/Equation.java:101-122 | with a positive leading coefficient the search ends from every start |
| Bisection.Equation.SearchEndsExactly | vich_mat/lab1_VICH_MAT/src/main/java/Equation.java:101-122 | it ends from every start exactly when the leading coefficient is positive and its power odd, or the cubic is zero |
| Bisection.Equation.RootFrom | vich_mat/lab1_VICH_MAT/src/main/java/Equation.java:23-24 | searching and halving gives a root within the accuracy, on the side to which the search goes |
| Sweep.DivisorMinor | vich_mat/lab2/src/main/java/Main.java:85-90 | what the forward loop divides by takes one leading determinant of the system to the next |
| Sweep.ThroughExactly | vich_mat/lab2/src/main/java/Main.java:80-90 | the sweep gets through its first rows without a division by zero exactly when none of the leading determinants up to there is zero |
| Sweep.DominantRegular | vich_mat/lab2/src/main/java/Main.java:80-90 | a strictly dominant diagonal is enough for that |
| Sweep.SmallCoefficients | vich_mat/lab2/src/main/java/Main.java:85-88 | with a strictly dominant diagonal every coefficient is below one in absolute value |
| Sweep.Forward | vich_mat/lab2/src/main/java/Main.java:76-90 | the forward loop, for every system that it gets through: each row gives its unknown by the next one |
| Sweep.SweepKeeps | vich_mat/lab2/src/main/java/Main.java:85-97 | the system has exactly the solutions of the swept rows |
| Sweep.Solution | vich_mat/lab2/src/main/java/Main.java:70-100 | for every system that the sweep gets through: the result solves all equations with the printed signs of the off-diagonals, and nothing else does |
| ProxyParser.EndHeadingStable | OS/proxy/lab32proxy/parser/ParserImpl.cpp:7-23 | the end found in what has arrived stays the end whatever else arrives, exactly when an empty line of the standard kind has arrived |
| ProxyParser.EndHeadingIs | OS/proxy/lab32proxy/parser/ParserImpl.cpp:7-23 | a heading ends behind its first standard empty line, or, without one, behind its first empty line of the other kind |
| ProxyParser.RequestIs | OS/proxy/lab32proxy/parser/ParserImpl.cpp:25-43 | a request is refused exactly when its heading is too short or names no host, and is a GET exactly when it begins so |
| ProxyParser.ResponseIs | OS/proxy/lab32proxy/parser/ParserImpl.cpp:45-59 | a response is a good one exactly when `200 OK` stands in its heading, and announces a length exactly when its heading has a place for one |
| ProxyParser.ContentLengthIs | OS/proxy/lab32proxy/parser/ParserImpl.cpp:92-104 | the announced length is the number that stands in decimal notation behind the first `Content-Length: ` |
| ProxyBuffer.Buffer.ReadFromSocket | OS/proxy/lab32proxy/buffer/BufferImpl.cpp:6-22 | for bytes from either side at any time: they are added, behind what came before, to the request or to the response or, after a refusal, to what the refused side is sent back; the buffer's invariant is kept in every phase |
| ProxyBuffer.Buffer.WrightRequestHeading | OS/proxy/lab32proxy/buffer/BufferImpl.cpp:24-53 | until its heading ends nothing changes; then the request is refused when its heading cannot be read, served from the cache when the cache has it, and otherwise ready for the server with all that came, its body still to come unless it is a GET |
| ProxyBuffer.Buffer.WrightResponseHeading | OS/proxy/lab32proxy/buffer/BufferImpl.cpp:63-111 | with the end of the heading the body begins, and a cache element is started exactly for a good answer to a GET that announces its length and is not in the cache |
| ProxyBuffer.Buffer.WrightResponseBody | OS/proxy/lab32proxy/buffer/BufferImpl.cpp:113-137 | the element holds exactly the bytes received, and is marked as complete exactly when the heading and the announced length have arrived; without an announced length the body ends when its last chunk has come |
| ProxyBuffer.Buffer.SendBuf | OS/proxy/lab32proxy/buffer/BufferImpl.cpp:148-170 | a block is the beginning of what is left to send, as long as the buffer size allows, and not empty when something is left |
| ProxyBuffer.Buffer.ProofSend | OS/proxy/lab32proxy/buffer/BufferImpl.cpp:172-213 | a block that was written moves from the buffer to what is sent; the phases change when all is sent, and then the client has all that was received, no less than announced |
| ProxyReader.AlwaysPrefix | OS/proxy/lab32proxy/server/HandlerOneClientImpl.cpp:342-352 | in every schedule what has been sent is a first part of the element, and all of it at each step at which the reader stops sending |
| ProxySleep.PartsExist | OS/proxy/lab32proxy/server/HandlerOneClientImpl.cpp:277-285 | every schedule that ends asleep splits at the last check of the server, at the check for bytes that found none, and at the sleep, since which nothing has woken the reader |
| ProxySleep.WorkExactly | OS/proxy/lab32proxy/server/HandlerOneClientImpl.cpp:277-285 | in every schedule that ends asleep: bytes are unsent exactly when some came after the check for bytes, and the server is gone exactly when it went after the check of the server and did not come back |
| ProxySleep.MissedExactly | OS/proxy/lab32proxy/cash/CashElementImpl.cpp:84-114 | a sleeping reader for which no signal is due any more has missed bytes exactly when some came between its check for bytes and its sleep, and misses that the server is gone exactly when it went between its check of the server and its sleep; every signal for it was given before the sleep |
| ProxySleep.SleepsOn | OS/proxy/lab32proxy/server/HandlerOneClientImpl.cpp:333-340 | a reader that is asleep sends nothing more until it is woken, whatever changes |
| ProxyLeaving.LeavesExactly | OS/proxy/lab32proxy/cash/CashElementImpl.cpp:59-66 | when it is signalled that the server has left, the thread ends, with everything sent, exactly unless it is at a check for bytes that finds none, or between that and its sleep |
| ProxyLeaving.ComesToRest | OS/proxy/lab32proxy/server/HandlerOneClientImpl.cpp:276-295 | once the server has left, the thread ends or falls asleep |
| ProxyLeaving.DeliversExactly | OS/proxy/lab32proxy/server/HandlerOneClientImpl.cpp:276-295 | left to itself the thread sends all that the element holds, whether the server is there or not, exactly unless it has left, sleeps or is about to sleep |
| ProxyLeaving.LeaveExists | OS/proxy/lab32proxy/server/HandlerOneClientImpl.cpp:286-289 | every schedule in which the thread leaves splits at a check that finds the server not connected and at the end of the last round of sending |
| ProxyLeaving.LeftExactly | OS/proxy/lab32proxy/server/HandlerOneClientImpl.cpp:286-289 | the client of a thread that has left lacks bytes exactly when some have come since; with a filler that appends nothing after it has disconnected, that thread checked before the server was marked as connected |
| ProxyLeaving.LacksExactly | OS/proxy/lab32proxy/server/HandlerOneClientImpl.cpp:264-299 | in every schedule at the end of which the thread rests and every change has been signalled, the client lacks bytes exactly when some came between a check for bytes and the sleep after it, or after the thread had left |
| ProxyHandler.Serve | OS/proxy/lab32proxy/server/HandlerOneClientImpl.cpp:58-188 | over every sequence of events, until a cache hit or until nobody is left to serve: every byte that came in has been taken for the request, for the response or after a refusal, in order; the server gets the request and the client the response or the refusal, each up to what is still in the buffer, and all of it when the side has been ready for as many writes as it has blocks; a refusal that both sides are sent parts of is split between them in order; the cache element holds the response |
| ProxyHandler.Happens | OS/proxy/lab32proxy/server/HandlerOneClientImpl.cpp:67-184 | one event: a side that is ready is written exactly the next block and the other nothing; a leaving client ends it unless the response is being cached, and a leaving server ends the response and is noted in the element |
| ProxyHandler.SendAll | OS/proxy/lab32proxy/server/HandlerOneClientImpl.cpp:342-352 | while other threads go on filling the element, the loop ends with all of it written, or the reader has no more turns |
| ProxyHandler.GetFromCash | OS/proxy/lab32proxy/server/HandlerOneClientImpl.cpp:264-299 | for every schedule of single steps of the reader and the other threads, the loops are in the state that the machine of the reader is in; at the moment at which the thread leaves, all of the element is written |
| Symbolic.SimplifyKeeps | MTK/block2/lab8/lab8.flow:67-156 | whenever an expression has a value, its simplified form has the same value and the same rate of change |
| Symbolic.DerivativeIsRate | MTK/block2/lab8/lab8.flow:158-174 | the derivative evaluates, wherever the expression does, to the rate that an evaluation with dual numbers gives |
| Symbolic.PipelineIsRate | MTK/block2/lab8/lab8.flow:202-209 | simplifying, differentiating, simplifying and calculating gives the rate of change of the expression |
| Symbolic.SimplifiesToZero | MTK/block2/lab8/lab8.flow:67-156 | the simplification leaves the number zero exactly when the expression is built from literal zeros, as a caller can see without simplifying |
| Symbolic.SimplifyExactly | MTK/block2/lab8/lab8.flow:67-156 | for every expression: the simplified form has the value of what is left of it, and so it differs in value exactly where the expression has none and something is left that has one |
| SymbolicNormal.SimplifiedIsSimple | MTK/block2/lab8/lab8.flow:67-156 | in a simplified expression no sum, difference or negation has a literal zero, no product a literal zero or one, no quotient a literal one as its divisor, and none, unless its divisor is a literal zero, a literal zero above or two sides that look alike |
| SymbolicNormal.TidyExactly | MTK/block2/lab8/lab8.flow:67-156 | nothing is negated twice and no negation is added or taken away, exactly unless a negation is taken away from zero |
| SymbolicNormal.SimplifyTwice | MTK/block2/lab8/lab8.flow:67-156 | without such a part simplifying a second time changes nothing |
| Tangents.ProductOnTangent | MTK/block2/lab8/lab8.flow:162 | the product of values on tangents is on the tangent that the product rule gives, with a stated bound |
| TangentRules.QuotientTangent | MTK/block2/lab8/lab8.flow:163 | where the divisor keeps away from zero, a quotient has the tangent that the quotient rule gives |
| SymbolicLimit.RateIsSlope | MTK/block2/lab8/lab8.flow:32-65 | the rate is the slope of the tangent: nearby, values differ from the line by at most a multiple of the square of the distance |
| SymbolicLimit.TangentUnique | MTK/block2/lab8/lab8.flow:158-174 | there is only one tangent |
| SymbolicLimit.PipelineIsSlope | MTK/block2/lab8/lab8.flow:202-209 | what the program calculates is the slope of the tangent of the expression it started with |

## Left out

- The parser engine and the Flow standard library: the grammar of machine programs is modelled as functions that try the
  alternatives in order, and a text counts as read when nothing is left of it. The grammar's array literals are not in
  the model, since nothing in the repository builds a value for them.
- What the grammar of machine programs makes of texts that were not printed by the printer.
- The grammar of the source language, and its statement printer, which prints tests and loops in a form that the grammar
  does not read.
- Flow trees and sets: sets are sets, variable bindings are maps, and the trees of the normaliser are lists of entries in
  an order that depends on how they were built. The order of the entries of a balanced tree is not modelled.
- Greatest common divisors are those of Euclid's algorithm and not negative; the sign that the library gives is not
  modelled.
- NemoVm.VmStep: the order in which the runner prints what its configurations print is left open by the set it walks
  over, so printing is stated for single runs. The messages for failed evaluations are not modelled.
- Machine integers and floating point: integers are unbounded and the numerical programs compute with exact reals.
- Memory that is freed: a freed sentinel is a node that nothing points to any more, and allocation does not fail.
- LineSort.SortLines: the lock around the round, the timer and the other threads of the program are not modelled.
- `remove_after` of the list, and the console loops around the list.
- Alternation: the thread starts or does not start; other failures of the thread library, sleeping and the destruction of
  the mutexes are not modelled. The number of lines is any number instead of ten.
- The driver of the root finder for two extrema, and the square root it needs.
- Bisection.Equation.Bisect: a bracket without a sign change is not covered; the method has no result to promise for it.
- The filling and printing of the matrix in the sweep program.
- The polling loop closes a side whose work has ended; the model of the connection lets its events go on.
- ProxyHandler.SendAll: when all is written the code's `sendAll` ends without returning a value, although its caller compares
  the result with a failure (HandlerOneClientImpl.cpp:291, 342-352); the model takes that end as success.
- ProxyHandler.GetFromCash: the calls of the thread library and the writes to the client do not fail; a failed one would
  end the reader's thread.
- ProxyBuffer.Buffer.SendBuf: the length of the cache element is read once in a call, and other threads act between calls.
  The code reads it again for the copy after it has sized the string with it (BufferImpl.cpp:155-157), so when the element
  grows in between it copies past the end of the string; what happens then is not modelled.
- The cache's list of elements with its eviction, the counting of users, sockets, name lookup and polling. Writes are
  complete, and the host and port of a request are not modelled.
- ProxyBuffer.Buffer.WrightResponseHeading: without an announced length the end of the body is looked for in the buffer
  as the code does, also in bytes that only look like it.
- Simpler programs of the repository: the calculators, the thread labs that print two texts, semaphores, philosophers,
  sleep sort and series.
