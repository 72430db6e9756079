# Verified models of the permuter and of the interrupt kernel

These Dafny modules model two parts of the repository and prove what they are meant
to keep. One is the permuter tool: it parses C, prints it back, rewrites it at random,
prunes it, compares types, preprocesses it, and spreads the scoring over worker
processes and network ports. The other is the kernel's interrupt code: a pool of 128
handlers that move between linked lists, and a dispatcher that works on a bit mask.

`dafny verify dfyconfig.toml` checks everything.

## The modules

| files | what they cover |
|---|---|
| `CSyntax`, `CPrinter`, `CParser`, `CRoundTrip`, `CRoundTripExact`, `CParentheses`, `CGrammar` | the C generator's parentheses and declarators against the parser and its precedence table, on token sequences, and both against the grammar of sections 6.5 and 6.7.5 of ISO/IEC 9899:1999, written without numbers |
| `DeclaratorSplice` | the heap form of the parser's declarator splice and the generator's string loop |
| `SwitchCases` | the in-place switch transform on heap nodes |
| `CSemantics`, `CLaws`, `Congruence`, `Rewrites`, `Passes`, `PassEdits` | a semantics of C functions and laws that it keeps, replacement at any position, the rewriting passes, and what they change in the tree |
| `NodeIndex`, `NodeEvents` | node numbering, read and write locations, nearest writes |
| `Prune` | the reachability-based pruner |
| `SameType` | type comparison through typedefs |
| `CondInclusion`, `MacroPatch` | the preprocessor's conditional groups and macro patches |
| `Permuter`, `Stripping`, `SeedFeeder`, `WorkQueue`, `WorkOrder` | scoring state, dropped sources, seed hand-out, and the queue protocol between parent and workers |
| `Framing` | the framed, encrypted port |
| `HandlerPool`, `HandlerLists`, `HandlerCalls`, `HandlerMisuse`, `SbusDispatch` | the interrupt-handler pool as values and as linked lists, which handlers a dispatcher then calls, what calls with wrong ids do to the pool, and the SBUS dispatcher |

Random choices, clocks, hashes, the cipher, condition evaluation and macro expansion
of arguments are parameters: the theorems hold for every choice of them.

## What the code does that its documentation does not say

Where one of these makes an intended property fail, a theorem below gives the condition
under which it holds, or an input for which it does not.

- `sizeof (T)` followed by a sign, `*` or `&` reads as `sizeof` of a cast. The printer
  never writes that text, so expressions still survive.
- An assignment survives printing exactly when its target needs no parentheses, a comma
  list exactly when it has two items and does not begin with a comma list, and a
  declarator exactly when each array bracket stands where the grammar has a rule for
  it. An abstract `[*]` as the first suffix becomes another dimension.
- Macro arguments are expanded in place while patches are applied from right to left. A
  parameter that is pasted with `##` to the left of a place where it stands alone is
  therefore pasted in its expanded form. Splicing is substitution for all arguments
  exactly when that does not occur in the macro's body.
- `perm_ins_block` does not look for a `break` or `continue` that leaves the range. In a
  `do … while (0)` such a statement no longer reaches the loop around it.
- `perm_compound_assignment` copies the target without asking whether evaluating it has
  side effects. Value and memory are kept exactly when evaluating it once more makes no
  difference, as in `*(p = q) += 1`; `*p++ += 1` is an example where it does.
- `perm_commutative` swaps operands with side effects too; what is kept then depends on the
  order of evaluation.
- The inequality moves change the value when an operand is at the edge of its range and
  arithmetic wraps around.
- Anonymous structs all compare as the same type, as do anonymous unions and enums,
  because only tags are compared and a missing tag equals a missing tag.
- Adding a handler with a bad `next` fails after the handler was taken from the pool, and
  strands it. Adding and removing do not check that `next` or the removed handler belongs
  to the named queue, and enabling and disabling check nothing, so that a free handler can
  lose its mark. Links, states and counters still form a pool after a call exactly when
  its ids are those of the named queue and no free handler is enabled or disabled.
- Dropping sources is invisible only because the score is a function of the hash.

## Model

| member | source | states |
|---|---|---|
| CRoundTripExact.PrintThenParse | tools/decomp-permuter/perm_pycparser/c_generator.py:53-182 | for every well-formed expression and both values of `reduce_parentheses`, parsing the printed tokens gives the tree back and leaves nothing over |
| CRoundTripExact.ReducedFormReadsTheSame | tools/decomp-permuter/perm_pycparser/c_generator.py:98-125 | the form with needless parentheses left out parses to the same tree as the full form |
| CParentheses.ParenthesesAreNecessary | tools/decomp-permuter/perm_pycparser/c_generator.py:98-125 | leaving the parentheses around a binary operand off keeps the tree exactly when the generator leaves them off: for a tighter operator on either side, or an equally tight one on the left |
| CParentheses.GraftRightPrints | tools/decomp-permuter/perm_pycparser/c_parser.py:515-526 | text whose left operand wrongly lost its parentheses is the printed form of the tree in which the operator sinks into that operand past every looser one that stands bare |
| CParentheses.GraftLeftPrints | tools/decomp-permuter/perm_pycparser/c_parser.py:515-526 | the same on the right, where an equally tight operator is also passed |
| CRoundTripExact.PrintedFormsAreDistinct | tools/decomp-permuter/perm_pycparser/c_generator.py:17-26 | no two expressions share a printed form, even across the two modes |
| CRoundTripExact.SizeofTakesTheOperator | tools/decomp-permuter/perm_pycparser/c_parser.py:1846-1868 | after `sizeof (T)` the grammar takes an operator that could be unary as the start of a cast's operand |
| CRoundTripExact.AssignmentRoundTrip | tools/decomp-permuter/perm_pycparser/c_generator.py:127-131 | an assignment survives exactly when its target is no binary, conditional, assignment or comma expression |
| CRoundTripExact.CommaListRoundTrip | tools/decomp-permuter/perm_pycparser/c_parser.py:1757-1776 | a comma list survives exactly when it has two items and does not start with a comma list |
| CRoundTripExact.DeclaratorRoundTrip | tools/decomp-permuter/perm_pycparser/c_parser.py:1217-1322 | before anything that does not go on with a declarator, for every chain of pointer, array and function modifiers over a named or abstract base, the printed declarator reads back as that chain exactly when each bracket has a grammar rule where it stands |
| CRoundTrip.BinaryBack | tools/decomp-permuter/perm_pycparser/c_parser.py:515-526 | on any stack of pending looser operators, an operator tree printed with reduced parentheses is rebuilt by the precedence table before anything looser is reduced |
| CRoundTrip.ExpressionBack | tools/decomp-permuter/perm_pycparser/c_parser.py:1757-1964 | the round trip inside any continuing text that an expression may be followed by |
| CRoundTrip.TypeNameBack | tools/decomp-permuter/perm_pycparser/c_parser.py:1519-1530 | type names in casts and `sizeof` are read back with qualifiers, words and modifiers |
| CRoundTrip.ChainBack | tools/decomp-permuter/perm_pycparser/c_generator.py:475-526 | the declarator string read back to its name and its modifiers in order |
| CRoundTrip.ParamsBack | tools/decomp-permuter/perm_pycparser/c_parser.py:1380-1456 | parameter lists, with or without `...`, are read back |
| CGrammar.LevelsFollowClasses | tools/decomp-permuter/perm_pycparser/c_generator.py:83-96 | the precedence table puts the operators in the order of the standard's ten classes, each class written out as a set of operators |
| CGrammar.ParserFollowsGrammar | tools/decomp-permuter/perm_pycparser/c_parser.py:1757-1908 | every phrase derived with the standard's nonterminals, which are written without numbers, is read as the tree that its derivation says |
| CGrammar.PrinterFollowsGrammar | tools/decomp-permuter/perm_pycparser/c_generator.py:53-182 | what is printed for an expression, in both modes, is such a phrase, and the tree of its derivation is that expression |
| CGrammar.RightOperandTaken | tools/decomp-permuter/perm_pycparser/c_parser.py:515-526 | between single operands `x lo y hi z` is read as `x lo (y hi z)` for every two operators of which the second is of a tighter class |
| CGrammar.LeftOperandTaken | tools/decomp-permuter/perm_pycparser/c_parser.py:515-526 | `x hi y lo z` is read as `(x hi y) lo z`, also when both are of one class |
| CGrammar.GrammarIsUnambiguous | tools/decomp-permuter/perm_pycparser/c_parser.py:1757-1964 | two derivations of the same tokens have the same tree |
| CGrammar.DeclaratorFollowsGrammar | tools/decomp-permuter/perm_pycparser/c_generator.py:475-526 | what is printed for a name and its modifiers is a declarator of section 6.7.5, and by that section's meaning it declares the name with just these modifiers |
| DeclaratorSplice.SplicedModifiers | tools/decomp-permuter/perm_pycparser/c_parser.py:261-294 | splicing before the TypeDecl appends the new modifiers after the old ones |
| DeclaratorSplice.SplicedIsDeclarator | tools/decomp-permuter/perm_pycparser/c_parser.py:261-294 | the two overwritten links leave one well-formed chain |
| DeclaratorSplice.TypeModifyDecl | tools/decomp-permuter/perm_pycparser/c_parser.py:261-294 | the in-place splice yields the chain whose modifiers are the old ones followed by the new |
| DeclaratorSplice.PointerRule | tools/decomp-permuter/perm_pycparser/c_parser.py:1324-1352 | the star read first becomes the innermost pointer |
| DeclaratorSplice.GenerateDeclarator | tools/decomp-permuter/perm_pycparser/c_generator.py:475-526 | the string-building loop prints exactly the chain that the round trip is about |
| SwitchCases.FixedKeepsOrder | tools/decomp-permuter/perm_pycparser/ast_transforms.py:13-105 | labels and statements keep their order, and no label is left below another |
| SwitchCases.NormalFormIsUnique | tools/decomp-permuter/perm_pycparser/ast_transforms.py:13-97 | there is only one such body for a given order |
| SwitchCases.ExtractNestedCase | tools/decomp-permuter/perm_pycparser/ast_transforms.py:99-105 | nested labels become siblings, each left empty but the last, which keeps the statement |
| SwitchCases.FixSwitchCases | tools/decomp-permuter/perm_pycparser/ast_transforms.py:63-97 | the loop over the heap nodes builds exactly the fixed body, and leaves a switch without a block alone |
| HandlerPool.RunKeeps | src/kernel/intr.c:154-303 | over every run of calls within the interface the 128 handlers are partitioned between the free list, the queues and the stranded ones, and state 3 holds exactly for free ones |
| HandlerPool.SetStateExactly | src/kernel/intr.c:422-448 | enabling or disabling keeps the partition and the marks exactly when the handler is not free |
| HandlerPool.FreeHandlerEnabled | src/kernel/intr.c:422-427 | enabling handler 1 right after initialisation leaves it in the pool without its mark, and a later call takes it as `next` |
| HandlerPool.RunConserves | src/kernel/intr.c:52-71 | over every run of calls within the interface the list lengths and the stranded handlers add up to 128 |
| HandlerPool.AddThenRemove | src/kernel/intr.c:212-231 | removing what was just added restores every queue and puts the handler at the back of the pool |
| HandlerLists.InsertInRing | src/kernel/intr.c:177-193 | inserting before a node puts the new one there in the circular list, with all other links kept |
| HandlerLists.UnlinkFromRing | src/kernel/intr.c:212-231 | unlinking takes exactly one node out of its circular list |
| HandlerLists.Kernel.constructor | src/kernel/intr.c:455-491 | initialisation links all handlers into the pool and leaves every queue an empty ring |
| HandlerLists.Kernel.Pop | src/kernel/intr.c:52-65 | the first free handler is unlinked and counted as used, or nothing changes when there is none |
| HandlerLists.Kernel.AddHandler | src/kernel/intr.c:168-198 | for every `next` the links, counters and states afterwards are those of the call; within the interface they are the pool that the call should give |
| HandlerLists.Kernel.RemoveHandler | src/kernel/intr.c:212-231 | the same for a removal of any id; the returned number is the counter left |
| HandlerLists.Kernel.SetState | src/kernel/intr.c:422-448 | the same for enabling and disabling, of any handler in the array; what a dispatcher then calls is said by the HandlerCalls rows |
| HandlerLists.Kernel.AddIntc | src/kernel/intr.c:154-198 | causes out of range, and the SBUS cause with a context, are refused without any change |
| HandlerLists.Kernel.AddDmac | src/kernel/intr.c:233-272 | the same for DMAC causes |
| HandlerLists.Kernel.Dispatch | src/kernel/intr.c:74-152 | walking `entries` links calls exactly the enabled handlers in queue order, stopping after a negative result |
| HandlerLists.StepFollowsApply | src/kernel/intr.c:154-303 | a call within the interface does to links, states and counters what it does to the pool, and returns the same |
| HandlerLists.PoolHeadAsNext | src/kernel/intr.c:168-193 | with the pool's first handler as `next` no set of lists describes the links any more |
| HandlerCalls.CallsMean | src/kernel/intr.c:74-152 | a call is made exactly for each handler of the queue that is reached, with a context in state 2 and without in state 0; a handler is reached when none before it was called with a context and answered with a negative number |
| HandlerCalls.CallsInOrder | src/kernel/intr.c:74-152 | calls follow the order of the queue, at most one for each handler |
| HandlerCalls.DisabledIsSilent | src/kernel/intr.c:429-434 | after disabling a handler no queue calls it, and the other calls are those of the queue without it |
| HandlerCalls.EnabledIsCalled | src/kernel/intr.c:422-427 | after enabling a handler that is reached it is called with its context and not without |
| HandlerCalls.AddFails | src/kernel/intr.c:168-193 | adding fails exactly when no handler is free, or `next` is neither -1 nor 0 nor the id of a handler in use |
| HandlerCalls.AddedPlace | src/kernel/intr.c:177-193 | the new handler stands last for -1, first for 0 and otherwise directly before `next`; the others keep their order and no other queue changes |
| HandlerCalls.AddedIsCalled | src/kernel/intr.c:168-198 | a new handler that is reached is called, with a context exactly when it was added with one |
| HandlerCalls.DisableThenDispatch | src/kernel/intr.c:429-434 | on the linked lists: after disabling, the dispatcher makes the calls of the queue without the handler |
| HandlerCalls.EnableThenDispatch | src/kernel/intr.c:422-427 | on the linked lists: after enabling, the dispatcher calls the handler with its context |
| HandlerCalls.AddThenDispatch | src/kernel/intr.c:168-198 | on the linked lists: a handler added in front is called first, in the way it was added |
| HandlerMisuse.SameRing | src/kernel/intr.c:11-30 | the links of a list determine it |
| HandlerMisuse.DescribesOne | src/kernel/intr.c:11-39 | links, states and counters fit at most one pool |
| HandlerMisuse.StepKeepsExactly | src/kernel/intr.c:154-303 | after any call with any ids some pool fits the links, states and counters exactly when the call was within the interface |
| HandlerMisuse.RunKeepsExactly | src/kernel/intr.c:154-303 | over every run of calls with any ids, some pool always fits exactly when every call was within the interface, and it is then the pool of the run |
| SbusDispatch.HighestBit | src/kernel/intr.c:314-330 | for every nonzero 32-bit mask the leading-bit sequence finds the highest set bit |
| SbusDispatch.Dispatch | src/kernel/intr.c:305-345 | the loop ends for every 32-bit mask, having made the expected calls |
| SbusDispatch.ExpectedMeans | src/kernel/intr.c:331-342 | a call is made exactly for each pending bit with a handler, in strictly descending order, and only bits below 16 are acknowledged |
| Permuter.PermuterState.WorkerTurn | tools/decomp-permuter/src/permuter.py:222-248 | what a worker sends keeps its score, and keeps source and hash exactly when all sources are wanted or the result is eligible, new, and under `best_only` no worse than the best; the worker remembers the same either way |
| Permuter.PermuterState.PostScore | tools/decomp-permuter/src/main.py:191-213 | a result is reported exactly when it is eligible, new, and under `best_only` no worse than the best; the best score never rises, hashes only grow, and what was posted, unless a zero, would not be reported again |
| Permuter.ReportedExactly | tools/decomp-permuter/src/permuter.py:232-256 | over every sequence of results exactly those eligible ones — complete, not above the base, below it under `better_only`, below the threshold if there is one — are reported whose hash is not the base's and, but for zeros, not that of an earlier eligible one, under `best_only` only while nothing better came before |
| Permuter.BestOfEligible | tools/decomp-permuter/src/permuter.py:250-256 | the best score is the lowest of the base score and all eligible results, reported or not |
| Permuter.ReportedOnce | tools/decomp-permuter/src/permuter.py:250-256 | over every sequence of results two reports with the same hash are zeros |
| Permuter.BestOfReported | tools/decomp-permuter/src/permuter.py:250-256 | the best score is the lowest of the base score and all reported ones |
| Permuter.BestOnlyImproves | tools/decomp-permuter/src/permuter.py:226-241 | with `best_only` no report is worse than an earlier one |
| Stripping.StrippingIsInvisible | tools/decomp-permuter/src/permuter.py:162-163 | over every interleaving of any number of workers with first-in-first-out delivery, the parent reports the same results in the same order, and remembers the same, as if nothing had been stripped |
| Stripping.TwoScoresForOneHashWouldShow | tools/decomp-permuter/src/permuter.py:232-248 | were one hash to come with two scores, a new best could be lost |
| SeedFeeder.Feeder.GetTaskOf | tools/decomp-permuter/src/main.py:525-534 | the next seed of one permuter; an exhausted one is struck out and counted |
| SeedFeeder.Feeder.GetTask | tools/decomp-permuter/src/main.py:515-524 | the next live permuter in turn is served, only exhausted ones are passed over, and there is no task exactly when all are exhausted |
| WorkQueue.DemandIsConserved | tools/decomp-permuter/src/main.py:240-276 | while seeds remain, queued tasks, tasks in progress and unread requests together number the empty polls so far |
| WorkQueue.NeverStuck | tools/decomp-permuter/src/main.py:536-561 | in every reachable state in which the parent waits, some step is possible |
| WorkQueue.DrainingProgresses | tools/decomp-permuter/src/main.py:563-585 | each step after the seeds are over leaves strictly less to do |
| WorkQueue.DrainingIsBounded | tools/decomp-permuter/src/main.py:570-585 | draining takes no more steps than there was to do when it began |
| WorkQueue.FinishComesLast | tools/decomp-permuter/src/main.py:249-261 | no worker is told to stop while an earlier task is still queued |
| WorkQueue.DrainedCompletely | tools/decomp-permuter/src/main.py:563-585 | when the second loop exits every worker has stopped, nothing is left anywhere, and each dispatched seed's result was received exactly once |
| WorkQueue.StoppedForGood | tools/decomp-permuter/src/main.py:258-261 | a worker that took its Finish takes nothing more |
| WorkOrder.TakenInOrder | tools/decomp-permuter/src/main.py:249-263 | over every run, seeds are taken in the order in which they were dispatched, whichever workers take them |
| WorkOrder.ResultThenRequest | tools/decomp-permuter/src/main.py:275-276 | when the parent reads a result, the next feedback in that worker's channel is a request for more |
| CondInclusion.Preprocessor.ParseGen | tools/decomp-permuter/perm_pycparser/ply/cpp.py:611-734 | the loop with `enable`, `iftrigger` and `ifstack` is the state machine of the theorems; a balanced file is well nested, and of every well-nested file the loop gives, each with its macro table, the tokens that section 6.10.1 keeps |
| CondInclusion.MachineSelects | tools/decomp-permuter/perm_pycparser/ply/cpp.py:668-722 | on every well-nested file, at any depth, exactly the selected text is kept, exactly the needed conditions are evaluated, in order, and the machine's state is as before |
| CondInclusion.FileMeans | tools/decomp-permuter/perm_pycparser/ply/cpp.py:611-734 | for every well-nested file the chunks handed to expansion are, token by token and with the table in force for each, the text that section 6.10.1 keeps, defined by recursion on the nesting with `#ifdef` as membership in the table; the final table and the conditions evaluated are that section's too |
| CondInclusion.BreaksOfLines | tools/decomp-permuter/perm_pycparser/ply/cpp.py:668-734 | skipped groups leave exactly the line breaks of their directives |
| CondInclusion.SkippedText | tools/decomp-permuter/perm_pycparser/ply/cpp.py:668-722 | skipped text evaluates, defines and expands nothing, and leaves only line breaks |
| CondInclusion.FirstTrueGroup | tools/decomp-permuter/perm_pycparser/ply/cpp.py:694-713 | of a chain the first group that holds is processed, after the conditions up to its own, and none after it is evaluated |
| CondInclusion.NoTrueGroup | tools/decomp-permuter/perm_pycparser/ply/cpp.py:694-713 | when none holds, each condition was evaluated once and only line breaks remain |
| CondInclusion.BalancedFilesAreSelected | tools/decomp-permuter/perm_pycparser/ply/cpp.py:611-734 | every file without misplaced or unclosed directives is well nested, and running the machine on it is selecting |
| CondInclusion.WellNestedIsBalanced | tools/decomp-permuter/perm_pycparser/ply/cpp.py:694-722 | and conversely |
| MacroPatch.Macro.Prescan | tools/decomp-permuter/perm_pycparser/ply/cpp.py:393-426 | after all deletions the recorded positions are those of their marks in what is left of the body, largest first |
| MacroPatch.PatchPointsAtMark | tools/decomp-permuter/perm_pycparser/ply/cpp.py:403-418 | a recorded position is that of the place it was recorded for |
| MacroPatch.MarkIsRecorded | tools/decomp-permuter/perm_pycparser/ply/cpp.py:403-418 | every place for an argument is recorded |
| MacroPatch.SortingReverses | tools/decomp-permuter/perm_pycparser/ply/cpp.py:426 | positions were found in increasing order, so sorting only reverses them |
| MacroPatch.Macro.StringPatches | tools/decomp-permuter/perm_pycparser/ply/cpp.py:441-448 | parameters after `#` become strings of their arguments as written |
| MacroPatch.Macro.CommaPatch | tools/decomp-permuter/perm_pycparser/ply/cpp.py:450-455 | the comma before the variable arguments is removed exactly when they are empty |
| MacroPatch.Macro.Splice | tools/decomp-permuter/perm_pycparser/ply/cpp.py:457-471 | splicing from right to left puts every replacement where its place was, and says which arguments were rewritten meanwhile |
| MacroPatch.Macro.ExpandArgs | tools/decomp-permuter/perm_pycparser/ply/cpp.py:436-478 | the whole expansion, with removed commas filtered out |
| MacroPatch.SplicingIsSubstitutionIff | tools/decomp-permuter/perm_pycparser/ply/cpp.py:461-471 | splicing is simultaneous substitution for all arguments exactly when no parameter is pasted left of a place where it is expanded |
| MacroPatch.PasteBeforeUse | tools/decomp-permuter/perm_pycparser/ply/cpp.py:461-471 | for the body `x ## _a x` and an argument that names an empty macro the two differ |
| MacroPatch.DefineAndExpand | tools/decomp-permuter/perm_pycparser/ply/cpp.py:393-478 | prescan and expansion together give the replaced body, and what section 6.10.3 asks for when no parameter is pasted left of a place where it is expanded |
| MacroPatch.SubstitutionIsMeant | tools/decomp-permuter/perm_pycparser/ply/cpp.py:393-478 | replacing all places at once is, position by position of the body, what section 6.10.3 of ISO/IEC 9899:1999 asks for: after `#` the spelling, next to `##` the argument as it is, elsewhere the expanded argument, operators and the comma before empty variable arguments dropped |
| MacroPatch.StringReadsAsWritten | tools/decomp-permuter/perm_pycparser/ply/cpp.py:441-448 | the string made of an argument reads, with its backslashes undone, as the argument's spelling in quotes |
| MacroPatch.WrittenConcat | tools/decomp-permuter/perm_pycparser/ply/cpp.py:441-448 | the spelling of two lists of tokens is that of the one followed by that of the other |
| Framing.Wire.ReadMax | tools/decomp-permuter/src/net/core.py:183-194 | however the bytes arrive, the loop returns as many as asked for, or all there are |
| Framing.Wire.ReadFixed | tools/decomp-permuter/src/net/core.py:197-201 | the exact number of bytes, or failure |
| Framing.Port.Send | tools/decomp-permuter/src/net/core.py:241-255 | one frame with the next nonce is appended to the wire, and what happens when a number no longer fits |
| Framing.Port.Receive | tools/decomp-permuter/src/net/core.py:261-281 | for any chunking the outcome, the bytes left and the nonce are those of reading one frame |
| Framing.FrameRoundTrip | tools/decomp-permuter/src/net/core.py:249-280 | a frame is read back whole, and nothing after it is touched, exactly when the sealed message is shorter than 2^56 bytes |
| Framing.MessagesArriveInOrder | tools/decomp-permuter/src/net/core.py:225-281 | in every session, in both directions, the k-th message received is the k-th sent, opened with the nonce that sealed it, and no nonce is ever used twice |
| Framing.NextReceiveDelivers | tools/decomp-permuter/src/net/core.py:261-281 | in either direction a message in flight is delivered by the next receive |
| Framing.OnlyOpenedMessages | tools/decomp-permuter/src/net/core.py:261-281 | whatever the bytes are, a receive gives a message exactly when they begin with a frame whose data opens to it with the receiver's nonce, and refuses exactly when such data does not open; it takes that frame and no more |
| Framing.NoncesDiffer | tools/decomp-permuter/src/net/core.py:248 | different counters give different packed nonces |
| SameType.ResolveTypedefs | tools/decomp-permuter/src/ast_types.py:43-51 | for acyclic tables the loop ends at something that is no typedef name and has the same canonical form |
| SameType.SameType | tools/decomp-permuter/src/ast_types.py:219-265 | for acyclic tables the comparison ends, and is true exactly when the two are the same by the relation on types, which is having one canonical form with nothing in it that is refused outright |
| SameType.SameParamType | tools/decomp-permuter/src/ast_types.py:199-216 | the same for parameters |
| SameType.AgreeIsSame | tools/decomp-permuter/src/ast_types.py:199-265 | the answer is that of a relation on the types themselves, with typedefs resolved: equal lists of names for plain types, tags for structs, unions and enums of one kind, never two kinds, and part by part for pointers, arrays and functions, parameters without similarity |
| SameType.IntAndFloatDiffer | tools/decomp-permuter/src/ast_types.py:199-216 | functions that differ only in an `int` and a `float` parameter are not even similar |
| SameType.OnlyTagsCount | tools/decomp-permuter/src/ast_types.py:234-254 | structs and unions are the same exactly when their tags are, whatever they contain, and so are enums unless similar types are allowed; all anonymous ones of a kind are therefore the same |
| SameType.CanonUnique | tools/decomp-permuter/src/ast_types.py:43-51 | the canonical form does not depend on the ranking that shows the table acyclic |
| SameType.AgreeUpToTypedefs | tools/decomp-permuter/src/ast_types.py:219-265 | the answer does not change when typedefs are resolved at any depth in either type |
| SameType.PlainIsComparable | tools/decomp-permuter/src/ast_types.py:205-216 | without `typeof` and tag-only parameters, in the type and in the table, nothing is refused |
| SameType.AgreeIsEquivalence | tools/decomp-permuter/src/ast_types.py:219-265 | for such types the comparison is reflexive, symmetric and transitive |
| SameType.SimilarIsBlurred | tools/decomp-permuter/src/ast_types.py:239-246 | allowing similar types forgets which integer-like type a leaf is, except inside function types |
| SameType.SameIsSimilar | tools/decomp-permuter/src/ast_types.py:239-263 | types that are the same are also similar |
| Prune.Graph.Build | tools/decomp-permuter/src/ast_util.py:463-506 | the graph leads from each name to exactly the items that declare it, and the roots are exactly the items that are no declaration to be dropped |
| Prune.Pruner.Visit | tools/decomp-permuter/src/ast_util.py:528-583 | a visit follows exactly the names an item mentions, deletes their edges, and asks for forward declarations where a pointer needs no more |
| Prune.Pruner.Collect | tools/decomp-permuter/src/ast_util.py:585-590 | the worklist ends and keeps exactly the least set that holds the roots and, with an item, all items declaring a name it mentions |
| Prune.Emit | tools/decomp-permuter/src/ast_util.py:592-626 | the new list is built as specified, and the assertions made on the way hold, for typedefs and for tags |
| Prune.EmittedMeans | tools/decomp-permuter/src/ast_util.py:602-626 | the new list keeps the order and holds exactly the items that are kept or declared forward |
| Prune.TypedefsAreServed | tools/decomp-permuter/src/ast_util.py:559-570 | each typedef name that a kept item only points to is still declared in the new list |
| Prune.TagsAreServed | tools/decomp-permuter/src/ast_util.py:571-577 | the same for tags |
| Prune.PruneAst | tools/decomp-permuter/src/ast_util.py:451-629 | the three steps together; the returned index is that of the target function |
| Prune.IdIsMentioned | tools/decomp-permuter/src/ast_util.py:510-519 | an identifier anywhere in an item, at any depth, is mentioned by it |
| Prune.TypeIsMentioned | tools/decomp-permuter/src/ast_util.py:545-570 | a type name anywhere in an item is mentioned, or its forward declaration is asked for |
| Prune.TagIsMentioned | tools/decomp-permuter/src/ast_util.py:571-583 | so is a tag without its body |
| Prune.AlwaysKept | tools/decomp-permuter/src/ast_util.py:463-506 | the target function, initialised variables, pragmas other than those for assembly, and whatever is neither declaration nor function are always kept |
| Prune.PrunedIsSelfContained | tools/decomp-permuter/src/ast_util.py:585-590 | with an item everything is kept that declares an identifier in it, or a type name in it unless that is declared forward |
| Prune.NothingElseKept | tools/decomp-permuter/src/ast_util.py:585-590 | a kept item is a root, or another kept item mentions a name that it declares |
| CSemantics.MoreFuel | tools/decomp-permuter/src/randomizer.py:403-404 | a run that ended ends the same way however often loops may come round, so equal runs at every bound are equal runs |
| Congruence.ReplaceKeepsValue | tools/decomp-permuter/src/randomizer.py:266-391 | replacing any rvalue position of an expression, also inside lvalues, by one of the same value keeps value and effects |
| Congruence.ReplaceExprKeepsRuns | tools/decomp-permuter/src/randomizer.py:394-404 | replacing an rvalue anywhere in a function, also under loops, by one of the same value keeps every run |
| Congruence.ReplaceKeepsRuns | tools/decomp-permuter/src/randomizer.py:266-391 | the same for statements |
| Congruence.SlotCongruence | tools/decomp-permuter/src/randomizer.py:325-362 | a condition may even be replaced by one that only agrees in truth and effects |
| Rewrites.CommutedExactly | tools/decomp-permuter/src/randomizer.py:1207-1227 | swapping operands keeps value and memory in a state exactly when evaluating them in either order gives the same there |
| Rewrites.CommutedKeepsValue | tools/decomp-permuter/src/randomizer.py:1207-1227 | the same for all states, with comparisons turned round; operands without side effects always qualify |
| Rewrites.MovedExactly | tools/decomp-permuter/src/randomizer.py:1547-1593 | each move of an inequality keeps its value in a state exactly when integers are unbounded or no operand leaves its range alone |
| Rewrites.MovedKeepsValue | tools/decomp-permuter/src/randomizer.py:1547-1593 | a move keeps value and memory in all states exactly when it fits in all of them; over unbounded integers it always does, also for operands with effects |
| Rewrites.Factors | tools/decomp-permuter/src/randomizer.py:1709-1719 | each factor the pass may choose, also of a negative constant, divides it exactly, and all small ones are found |
| Rewrites.FactoredKeepsValue | tools/decomp-permuter/src/randomizer.py:1685-1726 | splitting a constant factor keeps the value, also when arithmetic wraps around |
| Rewrites.ShiftedTwiceExactly | tools/decomp-permuter/src/randomizer.py:1729-1753 | shifting in two steps keeps the value in a state exactly when the whole shift is shorter than a word, or a step is not, or there is nothing to shift |
| Rewrites.XorZeroKeepsValue | tools/decomp-permuter/src/randomizer.py:1630-1653 | adding `^ 0` keeps the value |
| Rewrites.NewConditionKeepsTruth | tools/decomp-permuter/src/randomizer.py:1288-1317 | adding or stripping a comparison with zero keeps a condition's truth and effects |
| Rewrites.ToggledExactly | tools/decomp-permuter/src/randomizer.py:1515-1544 | expanding or contracting a compound assignment keeps value and memory in a state exactly when evaluating the target once more gives the same result, and the same memory except where it is stored |
| Rewrites.ToggledKeepsValue | tools/decomp-permuter/src/randomizer.py:1515-1544 | the same for all states, for every operator and right side; targets without side effects always qualify |
| Rewrites.AssigningTargetSettles | tools/decomp-permuter/src/randomizer.py:1541-1544 | a target such as `*(p = q)` has side effects and still qualifies in every state |
| Rewrites.TargetEvaluatedTwice | tools/decomp-permuter/src/randomizer.py:1541-1544 | `*p++ += 1` and its expansion leave different memory |
| Passes.CommutativePass | tools/decomp-permuter/src/randomizer.py:1207-1227 | every run of the whole function is kept when the order of the operands does not matter in any state |
| Passes.InequalitiesPass | tools/decomp-permuter/src/randomizer.py:1547-1593 | every run of the whole function is kept when the move fits in every state, which it does over unbounded integers |
| Passes.FactorMultPass | tools/decomp-permuter/src/randomizer.py:1685-1726 | every run of the whole function is kept, for every factor and order of operands |
| Passes.FactorShiftPass | tools/decomp-permuter/src/randomizer.py:1729-1753 | every run of the whole function is kept, for shifts within a word |
| Passes.XorZeroPass | tools/decomp-permuter/src/randomizer.py:1630-1653 | every run of the whole function is kept |
| Passes.ConditionPass | tools/decomp-permuter/src/randomizer.py:1259-1317 | every run of the whole function is kept, for the condition of any `if` or loop |
| Passes.CompoundAssignmentPass | tools/decomp-permuter/src/randomizer.py:1515-1544 | every run of the whole function is kept when the target may be evaluated once more in every state |
| Passes.StmtList.DeclCount | tools/decomp-permuter/src/randomizer.py:1107-1112 | the range begins after the leading declarations and pragmas |
| Passes.StmtList.InsBlock | tools/decomp-permuter/src/randomizer.py:1113-1130 | the list is edited in place, with the two ends in either order |
| Passes.WrappedExactly | tools/decomp-permuter/src/randomizer.py:1117-1130 | wrapping a range keeps how it runs, always with `if (1)`, and with `do … while (0)` exactly when the run does not break or continue out of the range |
| Passes.InsBlockPass | tools/decomp-permuter/src/randomizer.py:1092-1130 | every run of the whole function is kept for any range of any block: with `if (1)` always, with `do … while (0)` when no `break` or `continue` leaves the range |
| Passes.WrappedBreakGoesOn | tools/decomp-permuter/src/randomizer.py:1118-1127 | wrapping the `break` of a loop in `do … while (0)` makes the loop endless |
| PassEdits.ExprReplacedIsUndone | tools/decomp-permuter/src/randomizer.py:394-404 | an expression put anywhere in a function is found there, and putting the old one back restores the function |
| PassEdits.ReplacedElsewhere | tools/decomp-permuter/src/randomizer.py:266-391 | every place that is neither above nor below the replaced one is as it was |
| PassEdits.StmtReplacedElsewhere | tools/decomp-permuter/src/randomizer.py:266-391 | the same for statements |
| PassEdits.XorZeroIsUndone | tools/decomp-permuter/src/randomizer.py:1630-1653 | the pass inserts an exclusive or with zero, and putting its left operand there restores the function |
| PassEdits.CommutedIsUndone | tools/decomp-permuter/src/randomizer.py:1207-1227 | swapping twice restores the function |
| PassEdits.ToggledIsUndone | tools/decomp-permuter/src/randomizer.py:1515-1544 | a contracted assignment is expanded to what it was; an expanded one is contracted again exactly when its operator is not the remainder, a comparison or a logical one |
| PassEdits.ConditionIsUndone | tools/decomp-permuter/src/randomizer.py:1288-1317 | the pass changes every condition it takes, and with the right choices one more step restores the function |
| PassEdits.FactoredFactors | tools/decomp-permuter/src/randomizer.py:1685-1726 | the other factors stay and two constants stand for the one |
| PassEdits.WrappedIsUndone | tools/decomp-permuter/src/randomizer.py:1113-1130 | a wrapper of the chosen kind, between pragmas for `do`, holds exactly the range, and taking its body out restores the list |
| PassEdits.WrappedKeepsAtoms | tools/decomp-permuter/src/randomizer.py:1113-1130 | wrapping neither drops nor repeats nor reorders a statement |
| NodeIndex.Number | tools/decomp-permuter/src/ast_util.py:156-172 | the visitor numbers a node, then its kids in order, then its end |
| NodeIndex.IntervalsFollowTheTree | tools/decomp-permuter/src/ast_util.py:156-172 | intervals are strictly nested for a node and its descendants, and disjoint in tree order for all others |
| NodeIndex.EventsRise | tools/decomp-permuter/src/randomizer.py:195-220 | reads and writes are found at strictly increasing numbers |
| NodeIndex.ComputeLocations | tools/decomp-permuter/src/randomizer.py:189-235 | each variable's list is the places the search finds, in increasing order, and the monotonicity assertions never fail |
| NodeEvents.EventsAreThePlaces | tools/decomp-permuter/src/randomizer.py:189-263 | the writes found are exactly the nodes anywhere in the tree that declare, step or assign a variable; the reads are exactly its names, except types, operands of `&`, member names and assignments to plain variables |
| NodeEvents.ListedPlaces | tools/decomp-permuter/src/randomizer.py:189-263 | each variable's list holds exactly these places |
| NodeIndex.BisectLeft | tools/decomp-permuter/src/randomizer.py:630-631 | the split found by halving separates the places before from those at or after |
| NodeIndex.SurroundingWrites | tools/decomp-permuter/src/randomizer.py:615-636 | the result by halving is the greatest write before and the least at or after, over all variables read |
| NodeIndex.NearestWrites | tools/decomp-permuter/src/randomizer.py:189-263 | numbering a tree, collecting its writes and bisecting finds, of all writes in the tree to the variables read, the last before a place and the first at or after it |

## Left out

- Printer inputs beyond expressions, type names and declarators: statements, struct bodies, initialisers, attributes, pragmas and character-level lexing are not printed or parsed here.
- Identifiers that are also typedef names, and statement expressions; the parser's scope stack is not part of the model.
- Signed constants, which `perm_add_sub` can create and which do not read back as constants.
- The parser runs on the grammar's rules with a stack for binary operators, not on the generated LALR tables.
- Rewrites on heap nodes: passes act on values at a position in the tree, so object identity and shared nodes are not captured.
- Floating-point constants and types in the rewriting passes; zero is the integer zero.
- `switch`, `goto`, labels, struct values and calls through pointers in the semantics of functions; operands are evaluated from left to right.
- Passes.InsBlockPass: the semantics has no scopes of declarations, so that a range with declarations may be wrapped in the model without hiding the names.
- Passes that make no promise of equivalence, and temporaries and expansion of variables.
- Hardware registers, `$gp`, contexts of callbacks, callbacks that edit the list being walked, and `func_800021F0`.
- The list primitives `func_80006420`, `func_800064B0` and `func_800064D0` are declared without a body; they are taken to unlink the head or give null, unlink a node without touching its own links, and insert before a node. Queue numbers and kinds are those that the callers pass.
- `alarm.c`, `queue.c`, `sprintf.c`, `sio.c` and the assembly stubs.
- Candidates that fail to compile, profilers, error counts and printing in the scoring loop.
- CGrammar.ParserFollowsGrammar: asks that no `sizeof` of a type stands directly before an operator that could be unary; there the code reads another tree (CRoundTripExact.SizeofTakesTheOperator).
- CGrammar.GrammarIsUnambiguous: the same, since the proof goes through the parser.
- WorkQueue.NeverStuck: local workers only; the network branch of the main loop is not modelled.
- File inclusion in the preprocessor, and directives whose operand is missing, for which the code raises an exception.
- CondInclusion.MachineSelects: the value of an expression is a parameter, so `defined` and macro expansion inside it are not modelled.
- Termination of macro expansion, collecting arguments, and white space around operators in macro bodies.
- Tags shared between top-level items: naming an anonymous tag in one typedef does not show in another.
- Prune.PruneAst: asks that a typedef name is not declared once with a tag and once without, which C forbids.
- SameType.SameType: asks for a table without cycles; with a cycle the loop does not end.
- Keys, signatures, JSON, the files and sockets themselves, and the server; only complete sends are modelled.
- NodeIndex.SurroundingWrites: asks that node numbers stay below the code's limit, as its comment says.
- Argument parsing, configuration, compilers, disassembly and build scripts.
