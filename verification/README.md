# Chaaya: a verified model of the runtime's hard cores

Chaaya is a Scheme runtime in C. This project models the parts of it whose
correctness is not visible from one function, and proves what they are for.
`dafny verify dfyconfig.toml` checks the whole project.

Code that changes memory in place is modelled by classes and methods over
arrays and fields; each method is tied to a specification function or
relation, and the theorems are proved about that specification, for every
input, every reachable state or every run. Code that only computes is modelled
by functions and lemmas.

**Collector** (`GcHeap`, `GcMark`, `GcSpec`, `GcRuns`, `GcLaws`, `Gc`; `src/gc.c`). A heap
maps references to objects with generation, age and body; ephemerons have a
weak key. Mark bits are the set `marked`, the intrusive lists are the sequences
`young` and `tenured`. The live set is defined on its own, as the least set
that holds the roots, is closed under strong edges and holds an ephemeron's
value when it holds the ephemeron and its key. Over every run of allocation,
root changes, barriered stores, promotion and collections nothing live is
freed or loses its contents and no followed pointer dangles, although the
remembered set may hold dead old objects. A major collection empties the
remembered set without promoting the young, so the promise that every
old-to-young pointer is remembered survives it exactly when no live old object
points to a young one (`MajorKeepsRememberedIff`; `MajorLosesThePromise` is a
state where it is lost). Every other step keeps it, over whole runs, because a
store records its container (`RunKeepsRemembered`). The safety theorem does not
rest on that promise.

**Deep copy** (`Probing`, `DeepCopyTable`, `DeepCopySpec`, `DeepCopy`;
`src/gc_deep_copy.c`). Copying pairs, vectors, strings, symbols and immediates,
cycles and sharing included, terminates and yields an isomorphic graph in the
receiving heap; the copy fails exactly when something unsupported is reachable
and there is a VM to report it to.

**Fibers and channels** (`FiberSpec`, `FiberInv`, `FiberMoves`, `FiberHistory`,
`FiberRuns`, `FiberLaws`, `FiberOutcomes`, `FiberValues`, `FiberExamples`,
`FiberRing`, `Fibers`; `src/fiber.c`, `src/channel.c`). The scheduler is a state machine with a history of finished
sends. Over every run a message carries the value its sender's operation gave,
wherever it ends, no message is lost or doubled, each sender's arrive in order,
and turns are taken in the order fibers became ready. Three ways to lose a fiber were found and are stated exactly: a full
ready ring drops the last woken fiber, a full waiter list drops a fiber that
parks again, and on a rendezvous channel a receiver that parks, or parks again
after it was woken in vain, does not wake a parked sender, so that both wait
for ever (`StepMissesIff`). Below the limits neither of the first two happens on
any run (`RunsWithinNeverOverflow`). `FiberExamples` holds a run to each of
these states but the full waiter list.

**syntax-rules** (`SyntaxRules`, `SyntaxRulesMatching`, `SyntaxRulesInverse`,
`SyntaxTemplates`, `SyntaxMatcher`; `src/expander_syntax_rules.c`; section 4.3.2 of R7RS). Matching
is sound and complete for an independent reading of patterns, and instantiating
the pattern with what it bound gives the form back exactly when no repeated
element is one a template cannot count (one whose variables are all in a dotted
tail, or one repeated more than 64 times). The other way round, matching gives
back what any environment of the right depths held whose lists agree in length.
Instantiating any template under any bindings is substitution, repetition by
repetition (`InstantiateIsSubstitution`).

**Bytecode compiler** (`Bytecode`, `CompilerSpec`, `CompilerProofs`,
`CompilerLimits`, `CompilerMeaning`, `CompilerJumps`, `Compiler`; `src/compiler.c`
and parts of
`src/compiler_control.c`, `src/compiler_bind.c`, `src/disasm.c`, `src/vm.c`).
Expressions of constants, variables, `set!`, `if`, `begin`, `and`, `or` and
calls of an opaque callee compile to bytes that, run from the first one, end
at the last one with the source value in the target register. An expression
compiles exactly when its forms have their operands, its registers and jumps
reach and the tables have room for what they lack (`CompilesIff`).

**Lexical addressing** (`LexicalAddressing`, `FunctionScopes`;
`src/compiler.c`). For any chain of enclosing functions the upvalue entries lead
to the innermost enclosing variable of the name, at run time too.

**IR** (`IrForms`, `IrRoundTrip`, `IrCapture`, `IrSpec`, `IrAnalyze`, `IrOptimize`,
`IrMeaning`, `IrReduction`, `IrFold`; `src/ir_lower.c`, `src/ir_emit.c`,
`src/ir_analyze.c`, `src/ir_opt.c`). Lowering and emitting gives an expression back up to `(begin)`
and the spelling of keyword heads; analysis and optimization keep value, errors
and effects, the analysis finds every constant that does not hang on a variable,
a call or a lambda, and the optimizer leaves nothing it could still do. The emitted text is lowered to the same tree, `(begin)` aside,
exactly when no evaluated form is headed by a renamed keyword whose plain name
its scope binds (`EmittingKeepsTreeIff`): such a keyword is emitted with the
plain name and captured.

**Bignums** (`Limbs`, `Bignum`, `Decimal`, `Division`, `LongDivision`,
`LongQuotient`; `src/bignum.c`). The limb loops compute the mathematical
integers, results are canonical, printing and parsing are inverse. Negation can
leave the canonical form, for one number (`NegateIsCanonicalIff`). Long division
by two limbs or more does not always give the quotient: while the remainder has
a limb more than the shifted divisor, each of the 256 rounds for a digit takes
the divisor away once, and where the leading limbs make the estimate 2^64 - 1
the search for the digit does not end. `Completes` is the exact condition on the
two numbers; 2^136 by 2^127 + 1 and 2^128 - 1 by 2^64 + 1 do not meet it.

**Hash table** (`HashtableSpec`, `Hashtables`, `DefaultHashing`;
`src/hashtable.c`, key equality from `src/value.c`). With a lawful hash the table
refines a finite map through tombstones, their reuse and rehashing. Without one
the default hash does not respect the default equality: two equal bignums, and
under `equal?` two equal pairs, vectors or bytevectors, hash by address
(`DefaultHashRespectsIff`). Storing the word CH_UNDEFINED as a key is counted
but never found (the ghost field `lost`).

**Cache files** (`CacheFormat`, `CacheRoundTrip`, `CacheFile`, `CacheStream`;
`src/cache.c`). Reading a stored function gives it back whatever follows it;
symbols come back interned and cut at their first zero byte. A stored file
loads exactly when source, version and global slots agree.

**Formatter** (`FmtLexer`, `FmtTokens`, `FmtTree`, `FmtParses`, `FmtTidy`,
`FmtSpelling`, `FmtLines`, `FmtPrinter`, `FmtScanner`, `Formatter`,
`FormatterExamples`; `src/fmt.c`). For every text that parses,
whatever layout the widths lead to, the output is read back as the tokens of the
input with tidied comments, exactly when three things do not happen: an unquote
comma stands before a token that starts with `@`; the text breaks off inside a
character name; or an item that ends in a line comment (one directly behind a
prefix) is followed on the first line of its list by another item, or by a
comment that stood on its line, and swallows it. The tree alone decides the
last, for a list with a line comment in it is never put on one line. Tidying is
defined without the functions that do it (`TidyIff`). A list goes on one line
when the column the printer keeps leaves room for it; that column is never less
than the true one, so such a line ends within 80 columns, but it is not set
back at a line break, so that a list can be broken which would have fitted.

## Model

| member | source | states |
|---|---|---|
| GcHeap.LeastLiveIsUnique | src/gc.c:235-288 | the ephemeron-aware live set is one set: two least sets are equal |
| GcHeap.NoDanglingIffClosed | src/gc.c:292-566 | no reachable pointer dangles exactly when some set of allocated objects holds the roots and no edge leaves it |
| GcMark.WeakPhaseDone | src/gc.c:260-288 | when no pending ephemeron has a live key, the marks are the least live set and the pending list is exactly the ephemerons with a dead key |
| GcMark.MarkObjectStep | src/gc.c:292-298 | marking an object and then what it refers to is one tracing step from it |
| GcMark.WeakPhaseInClosed | src/gc.c:858-883 | whatever the tracing marks lies in every closed set around the roots |
| GcSpec.SweptPartition | src/gc.c:907-937 | after a minor sweep the two lists hold every object once, each in the list of its generation |
| GcSpec.MajorKeepsInv | src/gc.c:956-967 | a major collection keeps lists, counts, generation bits, cleared marks and absence of dangling pointers |
| GcSpec.MinorKeepsInv | src/gc.c:939-954 | a minor collection keeps the same, although it frees only young objects and traces from remembered dead ones |
| GcRuns.StoreKeepsInv | src/gc.c:973-982 | a barriered store keeps the invariant |
| GcRuns.PromoteKeepsInv | src/gc.c:984-1007 | promoting an object keeps the invariant |
| GcRuns.InsertKeepsInv | src/gc.c:1009-1032 | putting a new young object in front keeps the invariant |
| GcRuns.StepKeepsInv | src/gc.c:858-1032 | every operation of the program or the collector keeps the invariant |
| GcRuns.RunKeepsInv | src/gc.c:858-1032 | in every state of every run nothing followed dangles, nothing is marked between collections, and bits, lists and counts agree |
| GcRuns.MajorKeepsExactlyLive | src/gc.c:956-967 | a major collection keeps exactly the live set and breaks exactly the surviving ephemerons with a dead key |
| GcRuns.MinorKeepsLive | src/gc.c:939-954 | a minor collection keeps every live object with its fields, and every old object |
| GcRuns.MinorFreesOnlyDeadYoung | src/gc.c:907-954 | a minor collection frees exactly the young objects live neither from the roots nor from a remembered object |
| GcRuns.MinorKeepsRemembered | src/gc.c:837-846 | after a minor collection every old object that points to a young one is again remembered, promoted ones included |
| GcRuns.MajorKeepsRememberedIff | src/gc.c:956-967 | a major collection keeps that promise exactly when, before it, no live old object pointed to a young one |
| GcRuns.MajorLosesThePromise | src/gc.c:956-967 | a state in which it is lost: a live old container holds a live young object |
| GcRuns.LiveAfterMinor | src/gc.c:260-288 | breaking ephemerons in a minor collection loses no live object |
| GcRuns.StepKeepsLive | src/gc.c:858-1032 | no operation frees an object live from the roots or reuses its address, and its body stays but for a stored field or an ephemeron that is broken |
| GcRuns.RunKeepsLive | src/gc.c:858-1032 | the same at every step of every run |
| GcLaws.StepKeepsRemembered | src/gc.c:820-1032 | every step but a major collection keeps the promise that an old object which points to a young one is remembered |
| GcLaws.RunKeepsRemembered | src/gc.c:820-1032 | so does every run without a major collection, in all its states |
| GcLaws.StoreRemembersIff | src/gc.c:973-982 | a store makes its container remembered exactly when it is old and the value a young object, and nothing else |
| GcLaws.MinorRemembersExactly | src/gc.c:837-954 | under the promise a minor collection leaves exactly the old objects remembered that point to young ones |
| GcLaws.StoreThenRead | src/gc.c:973-982 | the stored field reads as the value, every other field of every object as before |
| GcLaws.NewIsThere | src/gc.c:1009-1032 | a new object is young, of age 0, rooted, holds its fields, and takes the address of nothing live |
| GcLaws.StepAges | src/gc.c:907-1007 | a step ages a young object by the minor collections in it and makes it old exactly at the promotion age or when it is promoted |
| GcLaws.AgeCountsCollections | src/gc.c:907-937 | over every run an object that stays young is older by the minor collections it survived, fewer than the promotion age |
| GcLaws.RunKeepsAllocationBounded | src/gc.c:1009-1032 | over every run no more is allocated between two collections than the last one allowed |
| GcLaws.LiveSameAfterMinor | src/gc.c:939-954 | a minor collection changes nothing about what is live |
| GcLaws.AllocationFreesGarbage | src/gc.c:956-1032 | an allocation due for a major collection leaves exactly what was live, and the new object |
| Gc.Collector.MarkValue | src/gc.c:848-852 | in-place marking from a value is a tracing step |
| Gc.Collector.MarkObject | src/gc.c:292-298 | marking recursively marks what is newly reached and appends the ephemerons met |
| Gc.Collector.MarkContents | src/gc.c:301-566 | traces an object's fields without marking it; an ephemeron becomes pending |
| Gc.Collector.MarkRemembered | src/gc.c:939-954 | the contents of remembered objects are traced, the objects themselves stay unmarked |
| Gc.Collector.ProcessWeakRefs | src/gc.c:260-288 | the ephemeron loop ends with the least live set marked and exactly the dead-keyed ephemerons broken |
| Gc.Collector.ReferencesYoungNow | src/gc.c:576-818 | answers whether a strong field refers to a young object; an ephemeron never counts |
| Gc.Collector.RememberedSetAdd | src/gc.c:820-835 | only old objects are appended to the remembered set |
| Gc.Collector.PruneRememberedSet | src/gc.c:837-846 | compacts the set in place to the entries that still point to a young object, in order |
| Gc.Collector.SweepListMajor | src/gc.c:885-899 | unlinks and frees exactly the unmarked objects of a list, unmarks the rest, and counts them |
| Gc.Collector.SweepYoungMinor | src/gc.c:907-937 | frees the unmarked young, ages the others, promotes those of age, and remembers promoted ones that point to young objects |
| Gc.Collector.CollectMajor | src/gc.c:956-967 | the whole major collection is the relation the theorems are about |
| Gc.Collector.CollectMinor | src/gc.c:939-954 | the whole minor collection is the relation the theorems are about |
| Gc.Collector.WriteBarrier | src/gc.c:973-982 | records the container exactly when it is old and the stored value young |
| Gc.Collector.StoreField | src/gc.c:973-982 | a store with its barrier is one step of the run |
| Gc.Collector.PromoteToOld | src/gc.c:984-1007 | relinking a young object into the old list is one step of the run |
| Gc.Collector.Alloc | src/gc.c:1009-1032 | collecting when due and linking the new object is one step of the run |
| Gc.Collector.PushRoot | src/gc.c:191-208 | pushing a root is one step of the run |
| Gc.Collector.PopRoots | src/gc.c:217-222 | popping roots is one step of the run |
| DeepCopyTable.ProbeEndsAbsent | src/gc_deep_copy.c:77-93 | a probe that reaches an empty slot proves the object was not met |
| DeepCopyTable.Visited.Put | src/gc_deep_copy.c:95-114 | the open-addressing table refines a map: put updates it, growing when half full |
| DeepCopyTable.Visited.Get | src/gc_deep_copy.c:77-93 | get finds exactly what the map holds |
| DeepCopyTable.Visited.Grow | src/gc_deep_copy.c:56-75 | doubling the buffer keeps every entry |
| DeepCopySpec.SuccessIsIsomorphic | src/gc_deep_copy.c:682-702 | a copy without error is isomorphic: the visited map is an injective bisimulation from what is reachable |
| DeepCopySpec.CopyReadsAlike | src/gc_deep_copy.c:128-172 | every path reads in the copy the image of what it reads in the original |
| DeepCopySpec.CopyKeepsSharing | src/gc_deep_copy.c:128-172 | any two paths meet in the copy exactly when they meet in the original, or lead to symbols of one name, or to what is replaced by the undefined value |
| DeepCopySpec.CopyStaysInReceiver | src/gc_deep_copy.c:384-434 | no pointer of the copy leads out of the receiving heap |
| DeepCopySpec.SuccessMeansSupported | src/gc_deep_copy.c:34-37 | with a VM to report to, success means nothing unsupported is reachable |
| DeepCopy.Copier.DeepCopy | src/gc_deep_copy.c:682-702 | terminates on any graph, leaves the source as it was, errs exactly on unsupported objects with a VM, else is isomorphic |
| DeepCopy.Copier.CopyValue | src/gc_deep_copy.c:384-434 | copies one value, extending the visited map only with finished objects |
| DeepCopy.Copier.CopyPair | src/gc_deep_copy.c:128-172 | copies a list along its tail in a loop, patching each new pair |
| DeepCopy.Copier.CopySlots | src/gc_deep_copy.c:384-434 | copies a vector registered before its items |
| FiberInv.WakeAllIsWoken | src/fiber.c:163-178 | with room, waking makes every waiter ready and queues it in order |
| FiberInv.WakeAllLosesTheLast | src/fiber.c:131-147 | without room, the last waiter is made ready and queued nowhere |
| FiberInv.WakeKeepsCoreIff | src/fiber.c:131-178 | waking keeps the scheduling invariant exactly when the ready ring has room |
| FiberRuns.StepKeepsInvIff | src/fiber.c:492-704 | every operation keeps scheduling, channel, FIFO and accounting invariants exactly when it overflows no queue |
| FiberRuns.RunKeepsInv | src/fiber.c:492-704 | over every run without overflow the invariants hold |
| FiberLaws.WithinLimitsNeverOverflows | src/fiber.c:131-186 | with no more live fibers than the ring holds and no more parked than a list holds, no step overflows |
| FiberLaws.RunsWithinNeverOverflow | src/fiber.c:131-186 | nor does any run whose states are within these limits |
| FiberExamples.FullQueueLosesAFiber | src/fiber.c:131-147 | a reachable state outside them whose next step loses a fiber |
| FiberLaws.ParkedInExactlyOnePlace | src/fiber.c:492-509 | a parked fiber is in the ready ring once or in the one list it belongs on once, and in no other |
| FiberLaws.QuietMeansBlocked | src/channel.c:287-482 | when nothing is queued or runs, each fiber waits for a value or for room that is not there, except exactly the senders that wait beside a receiver on a rendezvous channel |
| FiberLaws.StepMissesIff | src/fiber.c:511-603 | a step makes a sender and a receiver miss each other exactly when a sender waits on an empty rendezvous channel and the step parks a receiver there: a receive, or the turn of a woken receiver |
| FiberExamples.SenderParkedReached | src/channel.c:287-367 | a run after which a sender is parked on a rendezvous channel |
| FiberExamples.SenderFirstDeadlocks | src/channel.c:447-456 | a run on to where the receiver is parked too and both wait for ever |
| FiberExamples.WokenReceiverMisses | src/fiber.c:511-603 | a run to the same end in whose last step no receive is begun: a woken receiver finds nothing and parks again |
| FiberLaws.ReceivedInOrder | src/channel.c:40-52 | what was received is a prefix of what was pushed, and each sender's messages are pushed in program order |
| FiberLaws.OverInOrder | src/channel.c:287-367 | finished sends of one sender are finished in the order they were begun |
| FiberLaws.AtMostOnePlace | src/channel.c:287-482 | no message is in two of delivered, buffered, in hand, refused |
| FiberLaws.EveryMessageIsSomewhere | src/channel.c:287-551 | every message sent is in exactly one of them |
| FiberLaws.StepExtends | src/channel.c:287-551 | no operation takes back a delivery, reopens a channel or forgets a send |
| FiberLaws.RunExtends | src/channel.c:287-551 | nor does any run |
| FiberOutcomes.StepPushesIff | src/channel.c:287-367 | a message goes into a channel exactly when a send, begun or resumed, meets it open with a receiver or room |
| FiberOutcomes.StepRefusesIff | src/channel.c:287-367 | it goes back to its sender exactly when the channel is closed, or when the sender would wait and the list is full |
| FiberOutcomes.StepDeliversIff | src/channel.c:431-482 | a message is taken out, the oldest, exactly when a receive, begun or resumed, meets a channel that holds one, closed or not |
| FiberOutcomes.StepClosesIff | src/channel.c:531-551 | a channel is closed by closing it and by nothing else |
| FiberValues.StepKeepsValues | src/channel.c:287-367 | every step keeps it that finished and held messages carry the values that were sent |
| FiberValues.MessagesCarryWhatWasSaid | src/fiber.c:511-603 | after any run, wherever a sender's n-th message is, it carries the n-th value its operations sent |
| FiberValues.SentCountsWhatWasSaid | src/channel.c:287-367 | every value an operation began to send is counted |
| FiberValues.EofMeansClosed | src/fiber.c:511-603 | a resumed receiver gets the end-of-file value exactly from a closed channel with nothing left |
| FiberValues.ReadyInOrder | src/fiber.c:131-178 | fibers join the ready queue at its end and only its head is taken |
| FiberValues.TurnComes | src/fiber.c:683-704 | over every run the fiber at place i of the ready queue is next after i turns |
| FiberRing.Ring.Push | src/channel.c:40-44 | pushing into the ring appends to its contents |
| FiberRing.Ring.Pop | src/channel.c:46-52 | popping takes the first of its contents |
| FiberRing.Ring.Grow | src/channel.c:12-38 | growing keeps contents and order around the wrap |
| Fibers.Runtime.EnqueueReady | src/fiber.c:131-147 | queues a fiber once, if it is ready and there is room |
| Fibers.Runtime.DequeueReady | src/fiber.c:149-161 | takes the head of the ready ring |
| Fibers.Runtime.WakeWaiterList | src/fiber.c:163-178 | the loop wakes the list in order |
| Fibers.Runtime.Park | src/fiber.c:492-509 | the running fiber is parked on one list of one channel |
| Fibers.Runtime.Send | src/channel.c:287-367 | the in-place send is the step the theorems are about |
| Fibers.Runtime.Receive | src/channel.c:431-482 | the in-place receive is that step, and gives the oldest value or end of file |
| Fibers.Runtime.Close | src/channel.c:531-551 | closing wakes both lists |
| Fibers.Runtime.Repark | src/fiber.c:511-603 | a woken fiber that cannot go on parks again, or is lost on a full list |
| Fibers.Runtime.ResumeReceiver | src/fiber.c:511-603 | a resumed receiver goes on with the oldest value, or with end of file after the close, or parks again |
| Fibers.Runtime.ResumeSender | src/fiber.c:511-603 | a resumed sender pushes its held message, goes on with an error after a close, or parks again |
| Fibers.Runtime.RunFiber | src/fiber.c:511-681 | running a fiber to its next park or end is the resume step, and gives what it goes on with |
| Fibers.Runtime.RunNextReady | src/fiber.c:683-704 | one turn of the scheduler is the step the theorems are about, and gives what the fiber goes on with |
| Fibers.Runtime.SpawnFiber | src/fiber.c:791-820 | a new fiber is queued, or refused when the ring is full |
| Fibers.Runtime.NewChannel | src/fiber.c:320-347 | a new channel is empty and open |
| SyntaxRulesMatching.MatchBindsMeaning | src/expander_syntax_rules.c:252-462 | a successful match is one by the reading of patterns, and binds each variable to what it stands for |
| SyntaxRulesMatching.EachBindsMeaning | src/expander_syntax_rules.c:252-328 | an ellipsis gathers, row by row, what the element's variables stand for |
| SyntaxRulesInverse.MatchSucceedsIff | src/expander_syntax_rules.c:330-462 | the matcher succeeds exactly on the forms the pattern stands for, unless it meets a variable twice, which it refuses |
| SyntaxRulesInverse.RebuildsIff | src/expander_syntax_rules.c:591-854 | under the right bindings instantiating a pattern gives the form exactly when no element is dropped |
| SyntaxRulesInverse.MatchThenInstantiateIff | src/expander_syntax_rules.c:779-854 | match, then instantiate: the form comes back exactly when no element is dropped |
| SyntaxRulesInverse.MatchThenInstantiateIsInverse | src/expander_syntax_rules.c:531-854 | for patterns whose repeated elements a template can count and lists of at most 64, the two are inverse |
| SyntaxRulesInverse.InstantiateThenMatchIsInverse | src/expander_syntax_rules.c:435-854 | instantiate, then match: from any environment of the right depths whose lists agree in length every variable gets back what it had |
| SyntaxRulesInverse.CountIs | src/expander_syntax_rules.c:531-556 | a template finds the number of repetitions exactly when the element has a variable it looks at |
| SyntaxRulesInverse.DottedTailIsDropped | src/expander_syntax_rules.c:531-556 | a concrete pattern and form that do not come back |
| SyntaxTemplates.InstantiateIsSubstitution | src/expander_syntax_rules.c:531-854 | any template under any bindings gives its substitution: each variable reads, in each repetition, as its value or the item of its list, free symbols stay |
| SyntaxTemplates.SubstitutionIsUnique | src/expander_syntax_rules.c:591-854 | a template has one substitution |
| SyntaxTemplates.SingleIsRepeated | src/expander_syntax_rules.c:591-675 | a variable without an ellipsis inside a repeated element is read again in each repetition |
| SyntaxMatcher.Context.BindVar | src/expander_syntax_rules.c:166-209 | binding in place is the binding step of the matcher: a second binding of a variable and a 65th variable are refused |
| SyntaxMatcher.Context.MatchPattern | src/expander_syntax_rules.c:435-462 | matching in place fills the table with what the matcher's function gives |
| SyntaxMatcher.Context.MatchList | src/expander_syntax_rules.c:330-420 | the same for lists and tails |
| SyntaxMatcher.Context.MatchEllipsis | src/expander_syntax_rules.c:252-328 | the same for an ellipsis, whose rows are gathered and turned round in loops |
| Bytecode.DecodeEncode | src/disasm.c:78-167 | an encoded instruction is decoded again wherever it stands |
| CompilerProofs.GenGood | src/compiler.c:147-160 | generated code keeps to its registers, tables only grow, and constants and upvalues stay where they are |
| CompilerLimits.GenSucceedsIff | src/compiler.c:396-881 | generation succeeds exactly for well-formed expressions whose registers, jumps, constants and captures fit; then code size, registers and tables are the computed ones |
| CompilerLimits.CompilesIff | src/compiler.c:652-881 | an expression compiles exactly under that condition on expression, scope and tables |
| CompilerMeaning.CodeComputes | src/compiler.c:396-533 | running the code ends at its last byte with the source value in the target, the source's assignments made, other registers below the free ones untouched |
| CompilerMeaning.IfComputes | src/compiler.c:396-432 | so for if, one branch of which is run |
| CompilerMeaning.UntilComputes | src/compiler_control.c:477-535 | so for and and or, which stop at the first deciding operand |
| CompilerMeaning.BeginComputes | src/compiler.c:434-457 | so for begin, whose items share one target |
| CompilerMeaning.SetComputes | src/compiler_bind.c:7-33 | so for set! of a local or an upvalue |
| CompilerMeaning.ApplyComputes | src/compiler.c:490-533 | so for a call, operator and operands in consecutive registers |
| CompilerJumps.GeneratedJumpsLand | src/compiler.c:123-145 | every generated jump lands on an instruction boundary of the code |
| CompilerJumps.BoundaryDecodes | src/disasm.c:78-167 | at every boundary the bytes decode to the instruction that starts there |
| Compiler.FuncCompiler.EmitByte | src/compiler.c:102-112 | appends a byte, doubling the buffer when full |
| Compiler.FuncCompiler.EmitJump | src/compiler.c:123-128 | appends a jump with an empty offset and gives its place |
| Compiler.FuncCompiler.PatchJump | src/compiler.c:138-145 | fills the offset so that the jump leads to the end of the code, or gives up beyond 32767 bytes |
| Compiler.FuncCompiler.PatchHole | src/compiler.c:138-145 | seen as instructions: one hole is closed, nothing else changes |
| Compiler.FuncCompiler.AddConstant | src/compiler.c:191-206 | shares an equal constant or appends a new one |
| Compiler.FuncCompiler.ResolveLocalName | src/compiler.c:208-215 | finds the latest local of the name |
| Compiler.FuncCompiler.CompileExpr | src/compiler.c:652-881 | the bytes and tables added are those generated, or compilation gives up with generation |
| Compiler.FuncCompiler.CompileIf | src/compiler.c:396-432 | so with its two backpatched jumps |
| Compiler.FuncCompiler.CompileUntil | src/compiler_control.c:477-535 | so with a list of jumps patched together at the end |
| Compiler.FuncCompiler.CompileCall | src/compiler.c:490-533 | so for operator, operands and the call |
| LexicalAddressing.ResolveReachesBinding | src/compiler.c:208-245 | following the answer's entries reaches the innermost enclosing variable; -1 exactly when there is none or a full table is in the way; the variable is marked captured; earlier entries are untouched |
| LexicalAddressing.FollowAfterGrowth | src/compiler.c:217-229 | entries handed out before lead to the same variable after any later resolution |
| LexicalAddressing.EntriesAreInjective | src/compiler.c:217-229 | different entries of a function lead to different variables: sharing loses nothing |
| LexicalAddressing.UpvalueIsTheVariable | src/vm.c:1037-1066 | the cell a closure captures for an entry is the cell of the variable the entry leads to |
| FunctionScopes.FuncScope.ResolveLocalName | src/compiler.c:208-215 | the loop finds the latest local of the name |
| FunctionScopes.FuncScope.AddEntry | src/compiler.c:217-229 | shares an equal entry, appends a new one, or gives -1 on a full table |
| FunctionScopes.FuncScope.ResolveUpvalue | src/compiler.c:231-245 | the recursion over the linked compilers extends their tables in place as the theorem says |
| IrRoundTrip.RoundTripIsNormal | src/ir_lower.c:377-440 | for every expression, lowering and emitting gives its normal form: plain keyword heads, (begin) gone to void, all other forms as they were |
| IrRoundTrip.RoundTripIff | src/ir_emit.c:93-287 | an expression comes back unchanged exactly when no evaluated part is (begin) or has a renamed or uninterned keyword head |
| IrRoundTrip.OrdinaryRoundTripIff | src/ir_lower.c:377-431 | without renamed symbols, exactly when no evaluated part is (begin) |
| IrCapture.EmittingKeepsTreeIff | src/ir_emit.c:83-91 | what is emitted is lowered to the same tree, (begin) made void, exactly when no evaluated form has a renamed keyword head whose plain name its scope binds |
| IrCapture.OrdinaryIsNotCaptured | src/ir_emit.c:83-91 | without renamed symbols no form has |
| IrCapture.SecondTripIsIdentity | src/ir_emit.c:93-287 | then a second trip changes nothing more |
| IrCapture.SecondTripCanChange | src/ir_emit.c:83-91 | a captured form that a second trip changes again |
| IrCapture.RenamedKeywordIsCaptured | src/ir_emit.c:83-91 | a renamed if under a parameter named if is emitted as plain if and is a call on the next lowering |
| IrRoundTrip.PrimNamesMatch | src/ir_lower.c:67-106 | the primitive a name is lowered to is the one emitted under that name |
| IrRoundTrip.LowerListNodes | src/ir_lower.c:118-159 | the loops lower each item in order, or refuse an improper list |
| IrRoundTrip.PushLambdaParams | src/ir_lower.c:206-229 | collects the parameter names, dotted one included, up to 256 |
| IrRoundTrip.ScopeBinds | src/ir_lower.c:23-32 | finds a name in any of the enclosing parameter lists |
| IrRoundTrip.BuildList | src/ir_emit.c:32-40 | builds the list of the items in order |
| IrRoundTrip.ConvertNodeArray | src/ir_emit.c:53-76 | converts each node in order |
| IrAnalyze.AnalyzeIsSound | src/ir_analyze.c:12-158 | analysis of a sound tree keeps its meaning, and every constant it finds is one |
| IrMeaning.KnownIsConstant | src/ir_analyze.c:7-162 | every node flagged constant evaluates without effects to its constant value |
| IrMeaning.EvalKeepsHolds | src/ir_opt.c:154-217 | evaluating a tree unbinds no arithmetic name that the scan for redefinitions did not find |
| IrMeaning.OptimizeKeeps | src/ir_opt.c:521-704 | the optimized node gives the same value, errors and effects, and is sound again |
| IrMeaning.PassKeepsMeaning | src/ir_opt.c:706-733 | so does the whole pass after analysis, where enabled names are bound to their primitives |
| IrMeaning.IfKeeps | src/ir_opt.c:580-633 | choosing a branch, or swapping branches for not, keeps the meaning |
| IrMeaning.FlatKeeps | src/ir_opt.c:521-578 | splicing nested sequences and dropping constants keeps the meaning |
| IrMeaning.IdentityKeeps | src/ir_opt.c:480-517 | removing a neutral operand keeps the meaning, error cases included |
| IrOptimize.FoldIsBuiltin | src/ir_opt.c:290-464 | a folded call is what the primitive returns |
| IrReduction.IncreasingIs | src/prim_core.c:576-649 | < and <= of integers hold exactly when every neighbour is below, or at most, the next |
| IrReduction.DecreasingIs | src/prim_core.c:601-674 | > and >= exactly when every neighbour is above, or at least, the next |
| IrReduction.EqualityIs | src/prim_core.c:512-566 | = exactly when all are equal |
| IrReduction.SumIs | src/prim_core.c:323-353 | + is built from 0 and single numbers |
| IrReduction.ProductIs | src/prim_core.c:416-446 | * from 1 and single numbers |
| IrReduction.DifferenceIs | src/prim_core.c:355-414 | - takes all numbers but the first from the first, and negates a single one |
| IrReduction.FoldsIff | src/ir_opt.c:290-464 | a call on known operands folds exactly when there are at most 16, they are fixnums as far as they are looked at, no product leaves 64 bits and the result is a fixnum |
| IrReduction.AnalyzeFindsIff | src/ir_analyze.c:12-158 | with lambdas taken for variables, a constant is found exactly when the node has that value in every interpretation and world |
| IrReduction.RedefinedIff | src/ir_opt.c:118-217 | a primitive is disabled exactly when a node outside every lambda assigns or defines its name |
| IrReduction.OptimizeReduces | src/ir_opt.c:466-704 | afterwards no test is known, no sequence stands in a sequence or holds less than two items, and no enabled call can be folded or has a neutral operand |
| IrReduction.NotIsTaken | src/ir_opt.c:580-633 | of a test that stays, exactly one not at its head is taken away |
| IrFold.SafeAdd | src/ir_opt.c:232-238 | adds exactly when the sum is in 64 bits |
| IrFold.SafeMul | src/ir_opt.c:240-271 | multiplies exactly when the product is in 64 bits |
| IrFold.FoldPrimCall | src/ir_opt.c:290-464 | the folding loops compute the folded value and give up otherwise |
| Limbs.NormalizeLimbs | src/bignum.c:13-17 | drops exactly the leading zero limbs |
| Limbs.CmpMag | src/bignum.c:135-145 | the comparison loop is the order of the numbers |
| Limbs.AddMag | src/bignum.c:299-324 | the carry loop gives the sum |
| Limbs.SubMag | src/bignum.c:326-347 | the borrow loop gives the difference without a last borrow |
| Limbs.MulMag | src/bignum.c:349-373 | schoolbook multiplication gives the product; no step leaves 128 bits |
| Limbs.DivSmall | src/bignum.c:580-609 | dividing by one limb from the top gives quotient and remainder |
| Bignum.FitsIff | src/bignum.c:19-32 | the magnitude test is the fixnum range of 48 bits |
| Bignum.CanonicalIsUnique | src/bignum.c:281-297 | equal integers have one canonical form |
| Bignum.MakeFromMag | src/bignum.c:281-297 | limbs and sign become the canonical form of their integer |
| Bignum.Compare | src/bignum.c:268-279 | is the order of the integers |
| Bignum.Add | src/bignum.c:375-398 | is the canonical sum |
| Bignum.Sub | src/bignum.c:400-407 | is the canonical difference |
| Bignum.Mul | src/bignum.c:409-420 | is the canonical product |
| Bignum.NegateIsExact | src/bignum.c:422-437 | negation is exact |
| Bignum.NegateIsCanonicalIff | src/bignum.c:422-437 | negation stays canonical exactly when the number is not 2^47 |
| Decimal.PushDigit | src/bignum.c:704-749 | one parsing step is ten times plus the digit |
| Decimal.ParseDecimal | src/bignum.c:704-749 | succeeds exactly on decimal numerals and gives their canonical value |
| Decimal.WriteMag | src/bignum.c:751-811 | the chunks of nine digits, inner ones padded, are the reversed decimal digits |
| Decimal.ToString | src/bignum.c:751-811 | prints the decimal numeral of the integer |
| Decimal.WrittenIsDecimal | src/bignum.c:751-811 | that numeral is well formed and has the integer's value |
| Decimal.WrittenIff | src/bignum.c:751-811 | it is the only numeral of the integer: no leading zero, no plus sign |
| Decimal.PrintThenParse | src/bignum.c:704-811 | printing and parsing a canonical integer gives it back in the same form |
| Division.MagIsPow2 | src/bignum.c:455-474 | recognizes exactly the powers of two, with their exponent |
| Division.MagShiftRight | src/bignum.c:476-517 | shifting is the quotient by the power |
| Division.MagModPow2 | src/bignum.c:519-549 | masking is the remainder by the power |
| Division.DivShort | src/bignum.c:552-610 | for powers of two, smaller numerators and divisors of one limb num = q * den + r with r < den |
| Division.QuotRemLaw | src/bignum.c:664-702 | a is b times quotient plus remainder, and the remainder is smaller than b with the sign of a |
| LongDivision.MulScalar | src/bignum.c:159-178 | the divisor times a limb |
| LongDivision.CmpShifted | src/bignum.c:147-157 | negative exactly when the remainder is below the shifted divisor |
| LongDivision.EstimateIsAbove | src/bignum.c:235-266 | with limbs aligned the estimate bounds the true digit from above |
| LongDivision.SearchDigit | src/bignum.c:633-647 | binary search finds the largest digit up to the estimate that the remainder takes, and does not end exactly from the estimate 2^64 - 1 |
| LongDivision.SubScaledShifted | src/bignum.c:180-233 | subtracts digit times shifted divisor exactly, paying the borrow back |
| LongDivision.DivideRound | src/bignum.c:626-652 | a round does nothing exactly below the shifted divisor, hangs exactly at that estimate, and else takes the largest digit away and adds it to its limb modulo 2^64 |
| LongQuotient.HangsOnlyFor | src/bignum.c:634-647 | the search hangs only for divisors that begin with the limbs 1 and 0 or 1 and 1 |
| LongQuotient.DivideAt | src/bignum.c:626-653 | the rounds for one digit end with less than the shifted divisor exactly when 256 of them are enough and none hangs |
| LongQuotient.DivideLong | src/bignum.c:611-662 | the two loops give quotient and remainder exactly when every digit is found; otherwise they hang or the quotient is too small |
| LongQuotient.DivMag | src/bignum.c:552-662 | so for every path of the division of magnitudes |
| LongQuotient.SignedDiv | src/bignum.c:664-702 | quotient and remainder are canonical; the quotient truncates toward zero exactly under the condition on the magnitudes, and then the remainder is right too |
| LongQuotient.SmallQuotientsComplete | src/bignum.c:626-653 | quotients below 257 by other divisors than those that can hang meet the condition |
| LongQuotient.DivisionHangs | src/bignum.c:634-647 | two numbers for which the search hangs |
| LongQuotient.DivisionStopsShort | src/bignum.c:626-653 | two numbers for which 256 rounds are too few |
| HashtableSpec.PutThenLookup | src/hashtable.c:247-282 | a put is seen through every equal key and no other |
| HashtableSpec.RemoveThenLookup | src/hashtable.c:284-301 | a delete is seen through every equal key and no other |
| HashtableSpec.RunRemembersLastWrite | src/hashtable.c:232-301 | after any run of sets and deletes a lookup finds the last value set for an equal key and not deleted since |
| HashtableSpec.ProbeEndsAbsent | src/hashtable.c:119-135 | a probe that meets a never used slot, or every slot, proves the key absent, across tombstones |
| HashtableSpec.StoresAfterInsert | src/hashtable.c:137-167 | writing at the first tombstone of the probe keeps every key reachable |
| HashtableSpec.StoresAfterDelete | src/hashtable.c:284-301 | a tombstone keeps every other key reachable |
| HashtableSpec.RoomIff | src/hashtable.c:219-230 | an insertion slot exists exactly when the map is smaller than the table |
| Hashtables.Hashtable.FindEntry | src/hashtable.c:119-135 | finds exactly the stored key equal to the one sought |
| Hashtables.Hashtable.FindInsertSlot | src/hashtable.c:137-167 | gives the slot of the key, or one where it can be written; fails exactly when absent and full |
| Hashtables.Hashtable.InsertNoResize | src/hashtable.c:169-181 | inserts an absent key without comparing |
| Hashtables.Hashtable.Rehash | src/hashtable.c:183-217 | moving to new buffers keeps the map, or changes nothing when memory is short |
| Hashtables.Hashtable.MaybeGrow | src/hashtable.c:219-230 | afterwards there is room for one more, or it was out of memory |
| Hashtables.Hashtable.Get | src/hashtable.c:232-245 | is the map's lookup |
| Hashtables.Hashtable.Set | src/hashtable.c:247-282 | is the map's put; the retry after a failed search is never taken |
| Hashtables.Hashtable.Delete | src/hashtable.c:284-301 | is the map's removal |
| DefaultHashing.DefaultHashRespectsIff | src/hashtable.c:63-110 | equal keys hash alike exactly when they are one object or strings |
| DefaultHashing.BignumKeyHashesByAddress | src/hashtable.c:63-92 | two equal bignums that do not |
| CacheFormat.WordRoundTrip | src/cache.c:189-235 | a word is read back modulo its width, whatever follows |
| CacheFormat.LittleIs | src/cache.c:189-203 | byte i of a written word is its i-th byte from the low end |
| CacheFormat.BlobRoundTripIff | src/cache.c:205-254 | a blob is read back exactly when its length fits the header |
| CacheRoundTrip.FunctionRoundTrip | src/cache.c:258-419 | reading a written function followed by anything gives the restored function and stops at its end |
| CacheRoundTrip.StorableIff | src/cache.c:275-312 | a function is written exactly when no constant at any depth is of a refused kind |
| CacheRoundTrip.RestoredIff | src/cache.c:383-391 | the function comes back equal exactly when its symbols are interned and free of zeros |
| CacheRoundTrip.RoundTripIff | src/cache.c:258-419 | the round trip with both conditions |
| CacheFile.NamesRoundTrip | src/cache.c:597-640 | the global names load exactly when the common slots agree, and the longer table results |
| CacheFile.LoadAfterStoreIff | src/cache.c:426-647 | a stored file loads exactly for the same source and version and agreeing global slots, and gives every function back |
| CacheStream.Writer.WriteU64 | src/cache.c:195-203 | the loop writes the word's bytes, low first |
| CacheStream.Writer.WriteFn | src/cache.c:258-319 | writes the format's bytes, or stops at a refused constant |
| CacheStream.Reader.ReadU64 | src/cache.c:224-235 | the loop reads the word, or fails on a short file |
| CacheStream.Reader.ReadFn | src/cache.c:323-419 | finds what the format says and stops where it says |
| FmtLexer.TokenStable | src/fmt.c:410-477 | what follows a token does not change where it ends, for what may follow its kind |
| FmtTokens.LexCovers | src/fmt.c:214-232 | every character of a text is in one of its tokens, in order, or is white space |
| FmtTokens.KindsAre | src/fmt.c:345-477 | the spelling of a token tells its kind |
| FmtTokens.AtomIff | src/fmt.c:338-343 | a plain atom runs to the first delimiter |
| FmtTokens.QuotedIff | src/fmt.c:234-264 | a string or symbol ends at the first quote without a backslash |
| FmtTokens.QuoteIndexIff | src/fmt.c:315-325 | the delimiter of a raw string is what stands before its first quote |
| FmtTokens.RawIff | src/fmt.c:315-336 | a raw string ends at the first quote its delimiter and another quote follow |
| FmtTokens.BlockSkips | src/fmt.c:295-313 | in a block comment, text without marks is skipped |
| FmtTokens.BlockEnds | src/fmt.c:295-313 | a closing mark ends it |
| FmtTokens.BlockNests | src/fmt.c:295-313 | a comment inside is skipped as a whole, or neither ends |
| FmtParses.ParsesIff | src/fmt.c:527-705 | a program parses exactly when parentheses balance, at most 1024 are open at once and no prefix lacks its target |
| FmtTidy.TidyIff | src/fmt.c:481-515 | tidying takes the blanks at the end of a line comment away and makes CR LF and CR one LF in a block comment, and changes nothing else |
| FmtLines.MeasureIs | src/fmt.c:803-844 | a node has a width exactly without line comments and line breaks, and it is that of its text on one line |
| FmtTree.ParsedProgram | src/fmt.c:527-705 | the tree lists all tokens of the text, tidied, in order |
| FmtSpelling.LexedAreTokens | src/fmt.c:410-477 | each token read from a text is by itself one token of its kind |
| FmtSpelling.TidyIsToken | src/fmt.c:481-515 | a trimmed line comment and a block comment with plain line breaks are still one token |
| FmtSpelling.AddToken | src/fmt.c:875-893 | adding a token to a text that spells some tokens spells one more, or spoils them, as the mode says |
| FmtSpelling.SpoiledIff | src/fmt.c:410-477 | printing tokens in order spoils them exactly when a comma precedes an @ or a cut-off character name is not the last |
| FmtTree.MeasuredIsSafe | src/fmt.c:803-844 | a node that can be put on one line swallows nothing |
| FmtPrinter.Printer.EmitNode | src/fmt.c:939-965 | a printed node adds its tokens and nothing else, whatever the layout, unless its tree swallows one |
| FmtPrinter.Printer.EmitInline | src/fmt.c:967-999 | so on one line, with a space between two items and nothing else between tokens |
| FmtPrinter.Printer.EmitList | src/fmt.c:930-937 | a list that fits from the printer's column and has no blank line in its body is put on one line, which ends within 80 columns; one that does not and has more items than its first line takes is broken |
| FmtPrinter.Printer.EmitBodyFrom | src/fmt.c:1001-1031 | so for a body, comments kept at the ends of lines |
| FmtPrinter.Printer.EmitBodyStyle | src/fmt.c:1046-1078 | so for forms with distinguished items, which swallow a token exactly as the tree says |
| FmtPrinter.Printer.EmitCallStyle | src/fmt.c:1080-1125 | so for calls: operator and first argument |
| FmtPrinter.Printer.EmitBrokenList | src/fmt.c:1127-1148 | so for a list over several lines, its parenthesis never inside a comment |
| FmtPrinter.Printer.EmitTopLevel | src/fmt.c:1150-1175 | so for a program |
| FmtScanner.Scanner.Next | src/fmt.c:410-477 | taking tokens one by one takes those of the whole text |
| FmtScanner.Scanner.SkipSpace | src/fmt.c:222-232 | skips white space and counts its line breaks, CR LF once |
| FmtScanner.Scanner.ScanQuoted | src/fmt.c:234-264 | the loop ends where the string or symbol does |
| FmtScanner.Scanner.ScanBlockComment | src/fmt.c:295-313 | the loop ends where the nested comment does |
| FmtScanner.Scanner.ScanRawString | src/fmt.c:315-336 | the loop ends at the first closing delimiter |
| FmtScanner.Scanner.ScanHash | src/fmt.c:345-408 | dispatches on what follows # |
| Formatter.CutIsLast | src/fmt.c:266-293 | only the last token of a text can be a cut-off character name |
| Formatter.Format | src/fmt.c:1309-1370 | fails exactly where parsing does; otherwise preserves the program exactly when its text has no mishap and its tree swallows nothing |
| Formatter.CalmSwallowsNothing | src/fmt.c:1046-1125 | a text with no line comment behind a prefix has a tree that swallows nothing |
| FormatterExamples.CommaTakesAt | src/fmt.c:939-965 | a comma, a space and @a: the text has the first mishap |
| FormatterExamples.CommentSwallowsArgument | src/fmt.c:1080-1125 | a call whose operator is a quoted line comment swallows its argument |

## Left out

- The VM loop beyond the modelled opcodes, the reactor, shared channels between threads, the reader and the printer of values: other components.
- Flonums, rationals and complex numbers, in folding and elsewhere: rounding is not the point here.
- Failing allocations, except the hash table's out-of-memory status, where the available memory is a parameter; the source aborts in most places.
- Collector: roots of the virtual machine, of code being compiled and of the symbol table are one set of pinned references; the fields of each object kind are one sequence, with the fields only the tracer reads apart; destructors of foreign objects.
- Deep copy: records, parameters, errors, hash tables, closures and promises, whose children are copied before the object is registered or whose identity is not kept; the no-collection counter.
- Fibers: waiting for time or files, joining, the variants with a timeout, and how often a blocked main program drives the scheduler (its calls return blocked).
- syntax-rules: literals, underscores, escapes, vectors, custom and consecutive ellipses, hygiene renaming of free template symbols, patterns headed by quote or syntax-rules, more than 64 variables.
- Compiler: tail calls, globals, lambda and the binding forms, quasiquote; aborts are modelled as giving up. A name that a full upvalue table cannot hold falls through to a global in the source.
- CompilerMeaning.CodeComputes: the callee is opaque and touches no register of the caller.
- Lexical addressing: the fallback by base name for renamed identifiers.
- IR: tail marks, and rewriting nodes in place, which is modelled on values; what the tree prints as.
- IrMeaning.PassKeepsMeaning: assumes that callees and closures do not reassign arithmetic names behind the scan's back.
- IrForms: symbol names hold no zero byte, so comparing names is comparing strings.
- Bignums: `/` and `%` by powers of two stand for shifts and masks; reading limbs through a scratch word.
- LongQuotient.DivideLong: where the search would go on for ever the model stops and says so; outside the condition nothing is said about the remainder alone.
- Hash table: custom hash and equality procedures are functions that always answer the same; keys that are changed after they were stored; walking the table.
- DefaultHashing: keys are finite trees, so the table of pairs already met is not needed; the word mixer is any injection.
- Cache: paths and directories, and writing to a temporary file first; constants of eight bytes are stored low byte first, the byte order of the machine in the source.
- CacheRoundTrip.FunctionRoundTrip: sizes are below 2^32, the width of their headers; BlobRoundTripIff says what happens at that bound.
- CacheFormat.BlobRoundTripIff: the reader of the source allocates n + 1 bytes with the sum taken in 32 bits, which is 0 for a blob of 2^32 - 1 bytes; what happens at that one length is not modelled.
- CacheFile.LoadAfterStoreIff: the stored hashes are compared, not computed; no two global slots have the same name.
- Formatter: indentation and idempotence of the layout, the width of broken lists, the limit on file size, the check that reads both texts again, and which of several syntax errors is reported.
