# Verified model of the total-function core, its channels, its syntax and its derivers

The compiler type-checks dependent indices with a small core: total functions
on naturals are elaborated to terms, checked for subtraction obligations and
for termination, normalised to canonical linear forms, and queried through a
linear-arithmetic decider whose "true" is used as a proof. This project models
that core together with four other pieces whose correctness spans several
functions: the channel and select monitor of the Java runtime, the goml type
printer and parser, the goml operator printer and parser, and the two graph
analyses of the deriver.

`dafny verify dfyconfig.toml` checks everything.

## Layout

| file | models |
|---|---|
| Sums, Options | finite sums; options and other small things |
| Linear | canonical linear forms and the loops that build them |
| Decider, Schedules, Accepts | facts, equality elimination, the decider; when its answer is determined; what it surely accepts |
| Terms | terms and their integer big-step reference semantics |
| Values | normal forms, stuck computations, their denotation |
| Normalizer, Computes, Unfolding | normalisation by evaluation with fuel; closed terms compute; calls unfold |
| Obligations, Guards | subtraction obligations; what guards admit, and what the walk asks exactly |
| Totality, Shrinking, Divergence | the termination checker, what acceptance proves, when it accepts, and what it does not show |
| Elaborator, Fragment, Loops, Misreading | Go statements to terms; what is elaborated; the lowered loop; Go semantics of both |
| Atoms | what the atoms of normal forms stand for |
| Indices, IndexAnswers, IndexCases | index clashes and discharged propositions; when they are answered; two cases |
| Channels, Monitor, History, Runs, Waiting | GpChan and GpSelect as a monitor of any number of threads |
| Accounting, Outcomes | what operations return against what channels record; how and when they end |
| Tokens, TypeSyntax, TypeGrammar | types: printer, cursor parser, round trip, all ways to write one |
| OperatorSyntax, OperatorGrammar | operator expressions: printer, precedence climbing, round trip, all ways to write one |
| Wrappers | the structs a derived traversal descends through |
| Derivable | the fixpoint of derivable equalities |

## How meaning is given

A term means what `Terms.Ref` evaluates it to, over the integers, so that a
subtraction that goes below zero is visible; `k` bounds the depth of the
evaluation and an answer never changes when it grows. A value means what
`Values.Denote` gives it under a valuation of the variables: a stuck `if` keeps
its environment, a neutral call is the call, a product of atoms is the product.
A linear form means `Linear.Val` under any reading of its atoms, and a fact
holds or not of such a reading. Entailment quantifies over all natural readings.

Map iteration order is nondeterministic choice (`:|`) in the methods, and a
schedule of moves in the specification: `Decides(goal, hyps, r)` says that some
schedule of eliminations yields the answer `r`. Soundness is proved of every
schedule.

The monitor's step is what one thread does between taking the lock and giving
it up, by returning or by waiting on the condition. Spurious wakeups are steps.
Each channel carries what has been put in, taken out, queued and met, and each
thread the outcome of its last operation; the two are proved to tally.

## Where the code and its documentation differ

- The decider's answer depends on map iteration order: `unitAtom`
  (internal/core/arith.go:155-162) may pick different atoms, and there is a
  question that one choice answers true and another false
  (`Decider.AnswerDependsOnOrder`). True answers are proofs either way. The
  answer is determined when every equality hypothesis has at most one atom with
  coefficient 1 or -1 and that atom is in no other equality (so also when there
  is nothing to eliminate), when the hypotheses are contradictory, when the goal
  is among them, and when they do not entail it (`Schedules.AnswerUnique`). The
  other direction is out of reach of such a condition: hypotheses that leave a
  choice may still answer alike for one goal and not for another, because what
  each schedule leaves over is compared with the goal by taking off at most two
  inequalities, so to say when they agree is to run them.
- Index expressions are not checked for subtraction
  (internal/gen/totalgen.go:78-81 checks definitions only), while the clash test
  and the discharge read every call as a natural. `g(n-1) + 1`, with the
  accepted g(a) = if a == 0 then 0 else a, is said never to be zero and is zero
  at n = 0 (`IndexCases.UncheckedIndexClash`). The theorems ask that the runs of
  the index terms make their calls on naturals; every term that passes the
  subtraction walk does (`Atoms.PassingRuns`).
- The termination checker accepts a call if *some* argument shrinks
  (internal/core/total.go:113-117), and the argument may differ from call to
  call. `f(a,b) = if a == 0 then 0 else if b == 0 then f(a-1,b+2) else f(a+1,b-1)`
  passes both checkers and never answers at (1, 2)
  (`Divergence.AcceptedYetDiverges`). The termination theorem asks for one
  common position; functions of one parameter need no such hypothesis
  (`Totality.SingleParameterProgramsTotal`).
- The checker's comment asks for dependency order (internal/core/total.go:18-20),
  but its caller admits every function of the package
  (internal/gen/totalgen.go:82-89), so mutual recursion gets through
  (`Divergence.OrderNeeded`). The termination theorem takes the order as a
  hypothesis (`Totality.Callable`).
- Lowering drops self-assignments (internal/lower/tailcall.go:105-117), and
  reconstruction wants every parameter assigned
  (internal/core/elabgo.go:139-150): a lowered function elaborates back to its
  definition exactly when no `recur` passes a parameter unchanged (and there is
  a parameter), and is refused otherwise (`Elaborator.ReconstructionExact`).
- The labelled-loop case (internal/core/elabgo.go:112-118) does not ask that
  the loop be the whole body. A hand-written labelled loop after an early
  return is read as recursion of the whole function, with a different answer
  from Go's (`Misreading.NestedLoopMisread`). Loops around a whole body, written
  by hand or by lowering, agree (`Loops.LoweredLoopsAgree`).
- A qualified name is elaborated to its last part (internal/core/elabgo.go:193-196),
  so in `func f(N nat) nat { return cfg.N }` it is read as the parameter
  (`Misreading.SelectorMisread`).
- `enumWrappers` is documented to drop the structs on a cycle
  (internal/gen/traversalgen.go:99-102); the code drops every struct that leads
  to one (`Wrappers.CycleNeighbourDropped`). Derived traversals then miss
  children exactly below fields of such structs
  (`Wrappers.NothingMissedExactly`).
- A printed `?` re-read by goml's parser binds outside the prefix operators
  before it, so a prefix operator applied to a try does not survive the trip
  (`OperatorSyntax.RoundTripExact`).

## Model

| member | source | states |
|---|---|---|
| Linear.LinAdd | internal/core/value.go:229-251 | the loop over b's entries, in any order, builds a + s*b with no zero coefficient |
| Linear.LinScale | internal/core/arith.go:185-195 | scaling by a non-zero factor coefficient by coefficient, by zero to the zero form |
| Linear.LinMul | internal/core/value.go:255-291 | the nested loops, in any order, build the product with cross products as opaque atoms |
| Linear.SubstAtom | internal/core/arith.go:165-174 | replaces an atom by a form and leaves no zero coefficient |
| Linear.ValAdd | internal/core/value.go:228-251 | addition denotes integer addition under every valuation of the atoms |
| Linear.ValScale | internal/core/arith.go:185-195 | scaling denotes multiplication by the factor |
| Linear.ValSubst | internal/core/arith.go:164-174 | substitution denotes the form read with the atom standing for what replaces it |
| Linear.ValMul | internal/core/value.go:253-291 | multiplication denotes integer multiplication whenever the product atom reads as the product |
| Linear.MulCommutes | internal/core/value.go:273-276 | products commute when the opaque product of two atoms does |
| Decider.UnitAtom | internal/core/arith.go:154-162 | returns some atom with coefficient 1 or -1, or none when there is none |
| Decider.Eliminate | internal/core/arith.go:68-73 | the in-place loop substitutes in every other fact and leaves the defining one |
| Decider.EliminateAll | internal/core/arith.go:50-80 | the changed-flag loop runs some legal schedule to a state with no eliminable equality |
| Decider.Cover | internal/core/arith.go:94-119 | finds whether the form is non-negative after taking off at most two inequalities |
| Decider.Decide | internal/core/arith.go:37-121 | the answer is one some elimination schedule gives |
| Decider.EliminationExact | internal/core/arith.go:50-80 | every schedule of eliminations preserves entailment in both directions |
| Decider.ScheduleBounded | internal/core/arith.go:52-80 | each elimination spends one equality, so the loop ends |
| Decider.DecideSound | internal/core/arith.go:36-121 | true is a proof: every natural valuation satisfying the hypotheses satisfies the goal, whichever atoms were picked |
| Decider.DecideExact | internal/core/arith.go:85-135 | with no hypotheses the answer is true iff the goal is valid, and a false answer has a counter-valuation |
| Decider.AnswerExists | internal/core/arith.go:37-121 | from every question some schedule reaches an answer |
| Decider.HypothesisAccepted | internal/core/arith.go:107-118 | a goal among the hypotheses is answered true under every schedule |
| Decider.AnswerDependsOnOrder | internal/core/arith.go:155-162 | one question that one choice of atom answers true and another false |
| Schedules.MovesCommute | internal/core/arith.go:54-79 | two eliminations whose atoms are in no other equality give the same facts and goal in either order |
| Schedules.OneOutcome | internal/core/arith.go:52-80 | under such hypotheses all schedules that run to the end leave the same facts and goal |
| Schedules.AnswerUnique | internal/core/arith.go:155-162 | the answer does not depend on map order when the hypotheses are separate, contradictory, contain the goal or do not entail it |
| Accepts.ShiftAccepted | internal/core/arith.go:50-135 | a hypothesis weakened by any constant is answered true under every schedule |
| Accepts.SumAccepted | internal/core/arith.go:94-135 | the sum of any two inequality hypotheses, weakened by any constant, is answered true under every schedule |
| Accepts.FalseAccepted | internal/core/arith.go:81-93 | once elimination leaves a false ground fact every goal is answered true |
| Accepts.DefinitionsExact | internal/core/arith.go:50-135 | when elimination uses up the hypotheses the answer is true iff they entail the goal |
| Terms.RefMonotone | internal/core/term.go:1-75 | an answer of the reference evaluator never changes with more depth |
| Terms.RefAgree | internal/core/term.go:136-184 | the value of a term depends on its free variables only |
| Values.DenoteMul | internal/core/value.go:253-291 | the product of two values denotes the product of what they denote, with neutrals for products |
| Values.MulEqual | internal/core/value.go:253-291 | products in either order are definitionally equal |
| Values.EqualDenotes | internal/core/equal.go:7-50 | definitionally equal values denote the same |
| IndexAnswers.EqualExact | internal/core/equal.go:7-50 | values are definitionally equal iff their forms agree whatever the atoms stand for |
| Normalizer.Evaluator.Eval | internal/core/eval.go:28-172 | the code with its fuel field computes the specified result and leaves the specified fuel |
| Normalizer.Evaluator.EvalCall | internal/core/eval.go:81-111 | calls: unknown, wrong arity, collapsed to a neutral call, or the body's value |
| Normalizer.DecidedRight | internal/core/eval.go:121-136 | a comparison decided on ground or identical forms is decided as the values compare |
| Normalizer.EvaluateSound | internal/core/eval.go:28-186 | when the term evaluates to n in the store, its normal form denotes n, at a depth the lemma returns |
| Normalizer.NormalizationPreservesMeaning | internal/core/eval.go:28-186 | normalisation preserves meaning under every valuation, stuck ifs and neutral calls included |
| Normalizer.MoreFuel | internal/core/eval.go:28-32 | more fuel never changes a successful answer and is left over exactly |
| Computes.ClosedComputes | internal/core/eval.go:28-136 | over numbers and definitions, a term that evaluates to n normalises to the literal n with enough fuel: comparisons of numbers are decided and calls unfold |
| Computes.ClosedAnswers | internal/core/eval.go:28-136 | if such a term normalises to a number, it evaluates to that number |
| Computes.ClosedNormalForm | internal/core/eval.go:28-136 | such a term normalises to the literal n with some fuel iff it evaluates to n at some depth |
| Computes.EqualValuesDecide | internal/core/eval.go:128-136 | two operands with the same form decide a comparison though their value is unknown |
| Computes.OpenSucceeds | internal/core/eval.go:28-172 | with nothing to unfold, open terms always normalise when the fuel exceeds their cost |
| Unfolding.CallUnfolds | internal/core/eval.go:81-111 | a call with any arguments normalises to what its definition's body with the arguments in place does, when that is not stuck |
| Unfolding.UnknownRefused | internal/core/eval.go:81-103 | outside permissive mode a term with a call to an unknown name has no normal form, nor in either mode one with a wrong arity or an unbound variable |
| Unfolding.NormOne | internal/core/eval.go:28-32 | the normal form does not depend on the fuel that reached it |
| Atoms.EvaluatePlain | internal/core/eval.go:104-110 | normal forms of index terms hold no stuck if: stuck calls become neutral calls |
| Atoms.SafeNatural | internal/core/oblig.go:9-15 | a run that never subtracts below zero makes all its calls on naturals and answers a natural |
| Atoms.PassingRuns | internal/core/oblig.go:17-78 | a term that passes the subtraction walk makes its calls on naturals in every natural store |
| Atoms.EvaluateNatural | internal/core/eval.go:28-186 | when the run makes its calls on naturals, every variable, neutral call and product of the normal form denotes a natural, at a depth the lemma returns |
| Obligations.WalkOblig | internal/core/oblig.go:21-78 | discharges when every obligation can be proved on its path, and else names the first that can fail; the paths are told by Guards.PassesExactly |
| Obligations.CheckSubtractions | internal/core/oblig.go:17-19 | the walk of a definition's body without hypotheses |
| Obligations.CondFactsExact | internal/core/oblig.go:82-106 | the facts of a branch hold exactly when its condition does, except that != is informative only against 0 |
| Obligations.WalkSafe | internal/core/oblig.go:21-78 | where the walk passes, evaluation under true path facts never subtracts below zero and answers a natural |
| Obligations.CallSafe | internal/core/oblig.go:9-19 | every call of an admitted definition on naturals, at every depth, is safe and natural |
| Obligations.UnguardedRejectionExact | internal/core/oblig.go:31-38 | without path facts a subtraction is admitted iff it is safe for every natural reading of its atoms |
| Guards.PassesExactly | internal/core/oblig.go:21-78 | the walk passes iff every subtraction, wherever it stands, is discharged from the conditions on the way there; nothing else is asked |
| Guards.GuardAdmits | internal/core/oblig.go:59-64 | behind a comparison that implies a >= b the subtraction a - b is admitted, whatever the operands |
| Guards.GuardAdmitsElse | internal/core/oblig.go:59-65 | so it is behind the failure of a comparison whose negation implies it |
| Guards.PositiveAdmits | internal/core/oblig.go:82-92 | behind a comparison with 0, on either side, that implies a > 0 the subtraction a - 1 is admitted |
| Guards.PositiveAdmitsElse | internal/core/oblig.go:82-124 | so it is behind the failure of one whose negation implies it |
| Guards.UnguardedAdmitsExactly | internal/core/oblig.go:31-38 | without conditions a subtraction passes iff left >= right whatever naturals its parts stand for |
| Totality.DecreasesBelow | internal/core/total.go:124-148 | an argument accepted as smaller evaluates below its parameter |
| Shrinking.DecreasesExact | internal/core/total.go:124-148 | an argument is accepted iff it is a sum or difference that is always one and the same positive amount below its parameter |
| Shrinking.CheckTotalExact | internal/core/total.go:26-118 | a body is accepted iff each call in it, wherever it stands, is to a callable function or shrinks an argument |
| Totality.AcceptedProgramsTotal | internal/core/total.go:26-148 | definitions passing both checkers in order, with one descending position each, terminate on all naturals with a natural, and no subtraction executed goes below zero |
| Totality.SingleParameterDescends | internal/core/total.go:98-118 | with one parameter acceptance gives the common position |
| Totality.SingleParameterProgramsTotal | internal/core/total.go:26-148 | one-parameter programs that pass both checkers terminate with no further hypothesis |
| Divergence.AcceptedYetDiverges | internal/core/total.go:113-117 | a definition passes both checkers, has no common position, and never answers at (1, 2) |
| Divergence.OrderNeeded | internal/gen/totalgen.go:82-92 | mutually recursive definitions pass both checkers with the caller's callable set and never answer; dependency order refuses them |
| Divergence.DoublingTotal | internal/core/total.go:26-148 | a recursive definition meets every hypothesis of the totality theorem and so answers on every natural |
| Elaborator.BlockShape | internal/core/elabgo.go:43-122 | elaborated bodies have ifs in tail position only |
| Fragment.ExprAccepted | internal/core/elabgo.go:178-230 | an expression is elaborated iff every part is a name, a number, a sum, difference or product, or a call of a total function |
| Fragment.BodiesExact | internal/core/elabgo.go:43-122 | the results of elaboration are exactly the terms with their ifs on the spine |
| Fragment.ElseFollows | internal/core/elabgo.go:75-99 | an else block elaborates like the same statements after the if |
| Fragment.ElseIfFollows | internal/core/elabgo.go:75-99 | so does an else-if |
| Elaborator.LoweredReadsBack | internal/core/elabgo.go:101-119 | lowering and reconstructing a body gives the same term, or an error exactly when a recur keeps a parameter |
| Elaborator.ReconstructionExact | internal/core/elabgo.go:101-150 | elaborating the lowered loop gives the original term iff no recur passes a parameter unchanged |
| Loops.ReplacementExecutes | internal/lower/tailcall.go:103-122 | the emitted re-binding continues the loop in the state a recursive call would start in, dropped self-assignments included |
| Loops.CallRefines | internal/lower/tailcall.go:103-141 | what Go returns, through the loops around the body, is what the elaborated definition evaluates to |
| Loops.CallReflects | internal/core/elabgo.go:43-150 | what the elaborated definition evaluates to is what Go returns |
| Loops.LoweredLoopsAgree | internal/core/elabgo.go:24-150 | generated and hand-written loops around a whole body and the elaborated recursive definitions answer the same on every argument vector, and diverge together |
| Misreading.NestedLoopMisread | internal/core/elabgo.go:112-118 | an accepted body whose Go value is 3 and whose elaborated value is 7 |
| Misreading.SelectorMisread | internal/core/elabgo.go:193-196 | a qualified name read as a parameter: Go answers its value, the term the argument |
| Indices.FactOfHolds | internal/core/prop.go:198-209 | the fact of a proposition holds exactly when the relation does |
| Indices.SubstituteMeans | internal/core/term.go:234-264 | a substituted term evaluates to what the term does at the values of the substituted terms |
| Indices.DecidePropUnder | internal/core/term.go:324-328 | for Eq, Le and Lt the code answers as the specification of a discharged relation allows |
| Indices.DischargedIsTrue | internal/core/term.go:282-329 | a discharged Eq, Le or Lt holds between the callee's terms at the call's arguments for every natural valuation meeting the propositions in scope, where the terms make their calls on naturals |
| Indices.NeverZeroVal | internal/core/eval.go:221-243 | a form the sign test passes has no natural root |
| Indices.IndexClashUnder | internal/core/oblig.go:173-190 | for natural indices the code answers as the specification of a clash allows |
| Indices.RenameMeans | internal/core/oblig.go:235-259 | renaming a variant's variables apart keeps its value |
| Indices.ClashNeverEqual | internal/core/oblig.go:159-204 | a clash is a proof that no natural values of caller and variant variables meeting the propositions make the two indices equal, where the terms make their calls on naturals |
| IndexAnswers.NeverZeroExact | internal/core/eval.go:221-243 | the sign test passes iff the form is zero at no non-negative rational point |
| IndexAnswers.ClashExact | internal/core/oblig.go:159-204 | with no facts in scope indices clash iff their difference is zero at no such point |
| IndexAnswers.PropExact | internal/core/term.go:324-328 | with no facts in scope a relation is discharged iff it holds whatever naturals the atoms are |
| IndexAnswers.ApartByHypothesis | internal/core/oblig.go:192-204 | indices a fact in scope tells apart, either way round, clash |
| IndexAnswers.PropByHypothesis | internal/core/term.go:324-328 | a relation among the facts in scope is discharged |
| IndexCases.SuccessorOfSumNotZero | features/dependent/total.feature:26-31 | in a world with addition the index Plus(m, n) + 1 clashes with 0, answers on all naturals and is never 0 |
| IndexCases.SumComputes | features/dependent/total.feature:26-38 | Plus(m, n) normalises to the literal m + n |
| IndexCases.UncheckedIndexClash | internal/core/oblig.go:221-232 | a clash that is no proof, where the index calls a function on n-1 at n = 0 |
| Channels.GpChan.SendNow | internal/javabackend/runtime.go:484-492 | appends to the buffer or queues a fresh untaken sender; panics on a closed channel and changes nothing |
| Channels.GpChan.ReceiveNow | internal/javabackend/runtime.go:494-507 | takes the first buffered value, else the first queued sender and marks only it taken, else the zero value with ok = false |
| Channels.GpChan.Close | internal/javabackend/runtime.go:457-467 | closes once; panics on nil or closed and changes nothing |
| Monitor.StepQuiet | internal/javabackend/runtime.go:408-516 | every step that could make a parked thread's guard true signals the condition in that step |
| Monitor.TryAnyQuiet | internal/javabackend/runtime.go:550-572 | select keeps the same invariant, whichever ready case it takes |
| History.ReceiveBooks | internal/javabackend/runtime.go:494-507 | a receive keeps order, exactly-once meeting and the drained state |
| History.WithdrawBooks | internal/javabackend/runtime.go:426-432 | a withdrawn sender leaves the queue and the order of the others |
| Runs.StepSound | internal/javabackend/runtime.go:408-588 | every step of plain and select operations keeps all invariants |
| Runs.NoLostWakeups | internal/javabackend/runtime.go:408-516 | after any interleaving, no thread parked on the condition has a true guard |
| Runs.BufferedInOrder | internal/javabackend/runtime.go:408-507 | after any interleaving, values taken out followed by the buffer are the values put in, within capacity, with no sender queued; whose values they are is Accounting.DeliveredAsSent |
| Runs.SendEndsOnce | internal/javabackend/runtime.go:423-435 | after any interleaving, every unbuffered send is in exactly one of: queued once, met once, withdrawn from a closed channel |
| Runs.SendEndsForGood | internal/javabackend/runtime.go:422-435 | an end is permanent: in every later run a met send is never withdrawn and a withdrawn one never met |
| Waiting.SendLeaves | internal/javabackend/runtime.go:426-432 | a plain unbuffered send leaves by its own step only: returning if its sender was met, panicking and withdrawing it on a closed channel if not |
| Waiting.WaitingReceiversCounted | internal/javabackend/runtime.go:439-455 | after any interleaving, waitingReceivers is the number of threads inside a receive on the channel |
| Waiting.SelectSendReadyExact | internal/javabackend/runtime.go:478-480 | after any interleaving, an open unbuffered channel is ready for a select send iff some thread is inside a receive on it |
| Waiting.DrainedStaysDrained | internal/javabackend/runtime.go:484-507 | once a receive reports ok = false, no later run sends or delivers anything on the channel and every receive finds nothing |
| Waiting.HandoverRuns | internal/javabackend/runtime.go:423-455 | a legal run in which a plain send waits, is met by a receive that returns its value, and returns |
| Accounting.StepAccounted | internal/javabackend/runtime.go:408-588 | a turn adds to a buffered channel's record the value of a send that returned, to either kind's record the value a receive returned, and nothing else; a turn that parks adds nothing |
| Accounting.BufferedTurn | internal/javabackend/runtime.go:412-507 | a send that returned left its value last in the buffer, a receive that returned one took the first |
| Accounting.DeliveredAsSent | internal/javabackend/runtime.go:408-588 | after any run, the values returned by receives followed by the buffer are those of the sends that returned, in order; on an unbuffered channel they are those of the offers met, in order |
| Outcomes.GoesOnExactly | internal/javabackend/runtime.go:408-588 | a turn ends its operation iff what it waits for is there, and parks on it if not |
| Outcomes.OutcomeRight | internal/javabackend/runtime.go:408-588 | a send panics iff the channel is closed and its sender unmet, a receive ends empty iff nothing is left and then the channel is closed, a default runs only when nothing is ready |
| Outcomes.SelectTakes | internal/javabackend/runtime.go:550-572 | select takes the ready case picked, and the last default only when none is ready |
| Outcomes.OffersExact | internal/javabackend/runtime.go:423-432 | senders are queued by sends on open unbuffered channels and withdrawn by their own thread on closed ones, never otherwise |
| Outcomes.ClosedExactly | internal/javabackend/runtime.go:457-467 | a channel becomes closed by a close of it and by nothing else |
| TypeSyntax.ReadType | internal/goml/parser.go:464-473 | the cursor parser reads the specified type and stops at the specified token |
| TypeSyntax.ReadIndex | internal/goml/parser.go:475-493 | the operator loop builds the left-nested index type |
| TypeSyntax.ReadApp | internal/goml/parser.go:495-514 | arguments are collected for a named head only |
| TypeSyntax.ReadAtom | internal/goml/parser.go:516-538 | qualified names, literals and parenthesised types |
| TypeSyntax.AtomReadsBack | internal/goml/repl_type.go:46-82 | every well-formed type printed as an argument is read back as an atom |
| TypeSyntax.LeftReadsBack | internal/goml/repl_type.go:46-82 | every well-formed type printed left of an arrow is read back there |
| TypeSyntax.TypeReadsBack | internal/goml/repl_type.go:46-82 | printing then parsing gives back the tree, whatever ends the type |
| TypeSyntax.ParserImage | internal/goml/parser.go:464-538 | the well-formed trees are exactly those some token stream parses to |
| TypeSyntax.ParsePrintParse | internal/goml/repl_type.go:46-82 | whatever the parser read is read again from its printed form |
| TypeGrammar.ParsesWhatIsWritten | internal/goml/parser.go:464-538 | a token list is read as a type iff it is a way to write it, with parentheses allowed around any part |
| TypeGrammar.PrintWrites | internal/goml/repl_type.go:46-82 | what is printed is a way to write the type |
| TypeGrammar.TypeLength | internal/goml/repl_type.go:46-82 | no way to write a type is shorter than the printed one, but for parentheses around compound operands of index operators and equalities |
| OperatorSyntax.ReadOp | internal/goml/parser.go:1060-1068 | for the built-in operators the climbing loop reads the specified tree and stops at the specified token |
| OperatorSyntax.OpReadsBack | internal/goml/parser.go:1040-1069 | climbing over an expression printed at a precedence resumes with it as the left operand |
| OperatorSyntax.PrintParse | internal/goml/func.go:1066-1074 | printing then parsing gives the tree with tries moved outside prefix operators and nothing else changed |
| OperatorSyntax.RoundTripExact | internal/goml/func.go:1138-1146 | the tree comes back iff no prefix operator sits directly on a try; so always for binary operators over names and literals |
| OperatorGrammar.ParsesWhatIsWritten | internal/goml/parser.go:1040-1255 | a token list is read as a tree iff it is a way to write it: parentheses around any part, demanded where precedence or a postfix does |
| OperatorGrammar.ParserImage | internal/goml/parser.go:1040-1255 | every well-formed tree, a prefix operator on a try included, is read from some list, and no other tree is |
| OperatorGrammar.PrintWrites | internal/goml/func.go:1066-1146 | what is printed is a way to write the tree it is read back as |
| OperatorGrammar.PrintMinimal | internal/goml/func.go:1066-1146 | a tree without prefix operators on tries is printed as itself and no way to write it is shorter |
| Wrappers.Reach | internal/gen/traversalgen.go:104-121 | the chaotic iteration computes exactly the structs that reach the enum |
| Wrappers.Search.Visit | internal/gen/traversalgen.go:127-149 | the coloured search marks as cyclic what leads back into the stack or to a cycle and ranks the rest |
| Wrappers.EnumWrappers | internal/gen/traversalgen.go:103-176 | whatever the order: exactly the structs reaching the enum with no unending descent, ranked so that descent goes down, each feeding from the enum or another of them |
| Wrappers.ChildPathsExact | internal/gen/traversalgen.go:332-365 | the emitted descent ends and visits exactly the enum fields below, when the structs it starts in are kept |
| Wrappers.NothingMissedExactly | internal/gen/traversalgen.go:332-365 | no child is missed iff no field's struct reaches the enum and was dropped |
| Wrappers.CycleNeighbourDropped | internal/gen/traversalgen.go:99-102 | a struct on no cycle is dropped for leading to one |
| Derivable.StructComparable | internal/gen/equalgen.go:60-81 | the marked search answers whether no reachable plain field is uncomparable |
| Derivable.ComparableExactly | internal/gen/equalgen.go:60-81 | a struct is comparable iff no chain of plain struct fields, of any length, leads to a slice, function, map or channel |
| Derivable.EnumEqDerivable | internal/gen/equalgen.go:134-162 | the marked search through wrappers answers whether no unfit field is reached |
| Derivable.CleanExactly | internal/gen/equalgen.go:136-152 | a field passes iff no chain of wrappers, of any length, leads from it to an unfit field |
| Derivable.ConsistentPlanned | internal/gen/equalgen.go:86-162 | the fixpoint's condition on a set is that each field a member reaches through its kept wrappers mentions no function, map or channel, is no nested slice, and names only the member itself, members, kept wrappers and comparable structs |
| Derivable.LeftOutReachesUnfit | internal/gen/equalgen.go:120-162 | a candidate left out reaches, whichever such set is taken, a field that breaks this |
| Derivable.PassesMore | internal/gen/equalgen.go:134-162 | counting more enums as derivable never makes one fail |
| Derivable.PlanEquality | internal/gen/equalgen.go:200-220 | whatever the order: the greatest set of candidates whose reached fields are all fit with respect to the set |

## Left out

- Constructor terms, match terms and data-sorted indices: no elaboration modelled here builds them; the clash test by constructor names is not modelled.
- N-ary primitives: the elaborator builds binary ones only.
- Printed-form keys: atoms and products are keyed structurally, and the factors of a product are a multiset; that printing is injective is not claimed.
- Machine integers: the erased Go code works on int, the model on unbounded integers.
- Conjunctions, named propositions and text substitution (internal/core/term.go:290-323, internal/core/prop.go:106-195): index terms are modelled parsed, propositions are Eq, Le and Lt.
- Totality.AcceptedProgramsTotal: asks for a common descending position and dependency order, because acceptance alone does not imply termination; the condition is sufficient and can be read off the definitions, and no such condition can be equivalent to termination.
- Indices.ClashNeverEqual: is about terms that evaluate, making their calls on naturals; hypotheses are those built from propositions over the caller's variables.
- Indices.DischargedIsTrue: is about terms that evaluate, making their calls on naturals; the condition is sufficient, since a call below zero may still answer a natural.
- Indices.DecidePropUnder: conjunctions and named propositions are left out.
- Indices.IndexClashUnder: comparing constructor names and resolving tags are left out.
- Loops.LoweredLoopsAgree: bodies with a labelled loop below the top or with qualified names are left out; Misreading shows both are misread.
- Schedules.AnswerUnique: gives one direction, for the reason stated above.
- OperatorSyntax.ReadOp: user-declared operators and applications by juxtaposition are left out.
- Receivers and methods, type switches and result-less functions in tail-call lowering.
- GpChan as an object shared by real threads: the class models the operations under the lock, and the monitor's steps use the same functions on values with sender identities in place of sender objects.
- Thread interruption, fairness and progress of the lock and condition; rendezvous between two select arms, where a queued value is left without waiting.
- GpChan capacity below zero, length, capacity and iteration.
- User-declared operator symbols, applications, selectors, index expressions and other expression forms; a token that would start a juxtaposed argument makes the modelled parser refuse.
- Lexing: two adjacent prefix operators are two tokens here, while in text they may lex as one symbol or as a comment.
- The text of emitted equality and traversal code beyond which fields it visits.
- Files, processes, module loading, Java and Go emission, diagnostics, directives and the REPL loop.
