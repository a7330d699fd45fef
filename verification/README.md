# Verified models of the skynet runtime

This project models the parts of the server's runtime whose correctness is least obvious from reading
one function, and proves what they are for:

- **LPeg** (`Peg*.dfy`, `Seqs.dfy`): the pattern compiler, the peephole pass and the parsing machine of the vendored
  LPeg library, proved against a big-step semantics of parsing expressions (`PegTree.Eval`); the static analyses
  the compiler relies on, and what exactly they find; the check of grammars, what it accepts and why matching an accepted one
  ends; the in-place rewriting of trees. Nested grammars, rules and calls are included.
- **The timing wheel** (`TimerSlots.dfy`, `TimerWheel.dfy`) against the plain list of pending timers, over cascades
  and the 32-bit wrap of the clock.
- **Services** (`ServiceQueue.dfy`, `Scheduler.dfy`, `SchedulerRuns.dfy`): a service's ring queue, and scheduling as a state
  machine of any number of workers, senders, creators and killers, one locked section or atomic operation a step; what every
  run keeps, the order in which queues are served, and what each action comes to.
- **The write side of sockets** (`SocketWrite.dfy`): two priority lists, partial writes, half-close.
- **The reader/writer lock and copy-on-update memory** (`RwLock.dfy`, `Stm.dfy`, `StmRuns.dfy`, `StmOnLock.dfy`), one shared
  memory access a step, first each against its interface and then together: safety, what a read and an update end with,
  and that nobody is locked out.
- **Shared tables** (`SharedData.dfy`): building the array and the chained hash, lookup and iteration, against the
  source table.
- **Framing** (`NetPack.dfy`): length-prefixed packets out of interleaved streams that are cut anywhere, with hashed
  lists of incomplete packets and a growing ring, against a byte-by-byte parser and against what senders frame.
- **Serialization** (`Seri.dfy`, `SeriShort.dfy`): packing nested values into a chain of blocks and reading them back, with its
  errors; the encoding is the shortest that is read as the value.
- **Modular arithmetic** (`PowMod.dfy`): multiplication and powers modulo 2^64-59 in wrapping 64-bit words.

`dafny verify dfyconfig.toml` checks everything. Code that works by updating fields, arrays or a growing sequence is a
class or a method proved against a specification; recursion over trees is functions and lemmas; concurrent code is a
state machine. Semantics and analyses have a depth argument: `n` bounds how deep calls and loops are followed when a
meaning is looked for (`Diverge` means "not decided yet", and larger bounds keep an answer: `PegTree.EvalMonotone`),
`k` how many calls an analysis follows (results hold for every `k`; `PegStable.AnalysesEnd` and `CodeStable` show that a
large one gives what the analyses without a bound do).

## Findings

Properties the code was expected to have and does not. Each has a concrete input and the condition under which the
property does hold.

- *Accepted grammars terminate.* `verifyrule` drops its accumulator `nb` at an embedded grammar
  (`3rd/skynet/3rd/lpeg/lptree.c:1031-1032`), so `A <- G^0 A` with a non-nullable grammar `G` is accepted although it is
  left recursive (`PegLimits.EmbeddedGrammarMissed`). With `nb` kept the check accepts exactly the grammars without left
  recursion (`PegGrammar.LeftCallsExact`), and for those matching ends (`PegGrammar.AcceptedTerminates`).
- The same check takes it that look-behinds contain no calls (`lptree.c:1003`), but only what their length depends on
  contains none: `PegLimits.BehindCallMissed`, and `PegLimits.LookingBackMissed` without left recursion.
- *Compiling an accepted pattern ends.* For a predicate whose body has a fixed length `codeand` asks, last of its test,
  whether the body has captures. `hascaptures` follows a call into its rule and, as rules are chained, into all rules behind
  that one, and does not remember where it has been (`3rd/skynet/3rd/lpeg/lpcode.c:131-151,693-695`): on `A <- 'a' !&A`,
  accepted and without left recursion, it recurses for ever (`PegLimits.AskedForEver`). It ends if and only if in every rule that
  it comes to each call names a later rule (`PegCaptures.AskEndsExact`). That this is so wherever it is asked
  (`PegCaptures.AsksEnd`) is what compiling and matching require.
- *The peephole pass terminates.* On `A <- !G A`, with a grammar `G` that always fails, no analysis follows the call, the
  grammar is accepted, and the code is a jump to itself (`PegLimits.JumpsForEver`). Following jumps ends if and only if from no
  rule's start jumps and tail calls lead back to that start, which can be seen in the tree (`PegJumps.GenJumps`,
  `PegJumps.TailsEndExact`); so it ends for every pattern without left recursion (`PegJumps.GenFlows`).
- *A call calls the rule it names.* Rule numbers are kept in one byte while 1000 rules are allowed
  (`lptree.c:939`, `lpcode.c:861`): a call of rule 256 runs rule 0 (`PegLimits.RuleNumbersWrap`). `PegAnalysis.WellFormed`
  asks for numbers below 256, which is the condition.
- *A socket that was closed drains.* A handed-in descriptor is never watched for writing
  (`3rd/skynet/skynet-src/socket_server.c:811-826`, and no `sp_write` on the paths that queue packets for it), so what was
  queued for it stays (`SocketWrite.HandedIn` with the last clause of `SocketWrite.Poll`). Sockets that wait are watched if
  and only if they were not handed in (`SocketWrite.Socket.Heard`), and watched ones drain (`SocketWrite.DrainOut`).
- *A launched context is marked as initialized.* The creator gives up its reference before it writes the flag
  (`3rd/skynet/skynet-src/skynet_server.c:152-158`); a kill in between deletes the context first
  (`Scheduler.MarkTooLate`). `Scheduler.MarkReaches` has the exact condition.
- *A message accepted for a handle gets into the queue.* The handle is registered before the context has a queue
  (`skynet_server.c:144-145`, `218-224`): what is sent in between has nowhere to go (`Scheduler.PushTooEarly`). It arrives if and
  only if the creator has made the queue (`Scheduler.PushReaches`).

## Model

| member | source | states |
|---|---|---|
| PegTree.EvalMonotone | 3rd/skynet/3rd/lpeg/lpvm.c:147-351 | the meaning of a pattern is one answer: a larger bound on depth never changes an answer once there is one |
| PegAnalysis.CheckAuxSound | 3rd/skynet/3rd/lpeg/lpcode.c:172-206 | a pattern that matches the empty string somewhere is nullable; one said not to fail never fails, and is nullable too |
| PegAnalysis.FixedLenSound | 3rd/skynet/3rd/lpeg/lpcode.c:213-246 | a non-negative fixed length is the exact length of every match |
| PegAnalysis.GetFirstSound | 3rd/skynet/3rd/lpeg/lpcode.c:267-343 | a match that consumes, or stops before a follow character, starts with a character of the first set; with the flag off the pattern fails on the empty subject |
| PegAnalysis.GetFirstMonotone | 3rd/skynet/3rd/lpeg/lpcode.c:267-343 | a larger follow set gives a larger first set and the same flag |
| PegAnalysis.HeadFailExact | 3rd/skynet/3rd/lpeg/lpcode.c:350-372 | for a head-fail pattern the next character alone decides whether it matches, and its first set is exactly the characters on which it does |
| PegExact.CheckAuxExact | 3rd/skynet/3rd/lpeg/lpcode.c:172-206 | nullable and nofail are whether the pattern matches the empty subject, predicates taken to hold, or those that may fail taken to, whenever that is decided |
| PegExact.FixedLenExact | 3rd/skynet/3rd/lpeg/lpcode.c:213-246 | a pattern has a fixed length if and only if all lengths that its form allows are the same, and it is that one |
| PegStable.AnalysesEnd | 3rd/skynet/3rd/lpeg/lpcode.c:172-372 | in a pattern without left recursion the analyses, which follow calls without a bound, come to an end everywhere, with what the bounded ones say for every sufficient bound |
| PegStable.CodeStable | 3rd/skynet/3rd/lpeg/lpcode.c:172-372 | all sufficient bounds give the same code for a pattern without left recursion, and which patterns those are does not depend on the bound |
| PegCorrect.GenCorrect | 3rd/skynet/3rd/lpeg/lpcode.c:891-916 | code for any pattern, in any program, under any `opt`, `tt` and follow set the generator passes, takes the machine to the outcome the meaning of the pattern calls for, with the stack as it was |
| PegCorrect.ChoiceByTestCorrect | 3rd/skynet/3rd/lpeg/lpcode.c:650-685 | a choice without backtrack entry, because its first alternative is head-fail or the alternatives start differently, still means the ordered choice |
| PegCorrect.ChoiceWithEntryCorrect | 3rd/skynet/3rd/lpeg/lpcode.c:650-685 | a choice with an entry, behind a test or not, means the ordered choice |
| PegCorrect.OptionalCorrect | 3rd/skynet/3rd/lpeg/lpcode.c:650-685 | an optional pattern that reuses the enclosing choice's entry by a partial commit means the same |
| PegCorrect.LoopByTestCorrect | 3rd/skynet/3rd/lpeg/lpcode.c:749-785 | a repetition driven by a test alone repeats as often as the pattern matches |
| PegCorrect.LoopWithEntryCorrect | 3rd/skynet/3rd/lpeg/lpcode.c:749-785 | so does one with an entry, its own or an outer one |
| PegCorrect.SpanCorrect | 3rd/skynet/3rd/lpeg/lpcode.c:749-785 | the span instruction means the greedy repetition of its set |
| PegCorrect.NotCorrect | 3rd/skynet/3rd/lpeg/lpcode.c:795-809 | both forms of a negation succeed without consuming exactly when the pattern fails |
| PegCorrect.AndCorrect | 3rd/skynet/3rd/lpeg/lpcode.c:693-709 | both forms of a predicate, stepping back over a fixed length or returning to an entry, match without consuming exactly when the pattern does |
| PegCorrect.BehindCorrect | 3rd/skynet/3rd/lpeg/lpcode.c:632-636 | a look-behind matches where the pattern matches that many characters earlier |
| PegCorrect.GrammarCorrect | 3rd/skynet/3rd/lpeg/lpcode.c:816-856 | a grammar, its calls turned into calls or tail jumps, means its first rule |
| PegCorrect.CompiledCorrect | 3rd/skynet/3rd/lpeg/lpcode.c:816-916 | before the peephole pass: whenever matching a well-formed pattern has an answer, its code gives that answer on every subject from every position |
| PegLink.CorrectCallsShape | 3rd/skynet/3rd/lpeg/lpcode.c:816-833 | correcting calls changes open calls only, each into a call of the position of its rule, or a jump there and then only where returning is all that is left to do |
| PegJumps.GenJumps | 3rd/skynet/3rd/lpeg/lpcode.c:614-856 | in the code of a well-formed pattern every label is inside the code, and following jumps ends everywhere if and only if a recursion over the tree says so |
| PegJumps.TailsEndExact | 3rd/skynet/3rd/lpeg/lpcode.c:816-833 | what it asks of a grammar holds if and only if from no rule's start jumps and tail calls lead back to that start |
| PegJumps.GenFlows | 3rd/skynet/3rd/lpeg/lpcode.c:614-626 | it holds for every pattern without left recursion |
| PegCaptures.AskEndsExact | 3rd/skynet/3rd/lpeg/lpcode.c:131-151 | asked about a pattern `hascaptures` ends if and only if in every rule it comes to each call names a later rule |
| PegCaptures.HasCaptures | 3rd/skynet/3rd/lpeg/lpcode.c:131-151 | where that is so the recursion over calls and chained rules returns, and says whether it comes to a capture, whatever counts as one |
| PegPeephole.SimAnswers | 3rd/skynet/3rd/lpeg/lpcode.c:928-967 | code reached by threading jumps, or by putting a jump's target in its place, gives the same answer on every subject |
| PegCompiler.CompileState.CodeGen | 3rd/skynet/3rd/lpeg/lpcode.c:891-916 | appending and patching instructions leaves what was there and adds exactly the specified code |
| PegCompiler.CompileState.CodeChoice | 3rd/skynet/3rd/lpeg/lpcode.c:650-685 | the same for choices, whose labels are set after the fact |
| PegCompiler.CompileState.CodeRep | 3rd/skynet/3rd/lpeg/lpcode.c:749-785 | the same for repetitions |
| PegCompiler.CompileState.CodeAnd | 3rd/skynet/3rd/lpeg/lpcode.c:693-709 | the same for predicates, where the form depends on the length of the body and on the question for captures |
| PegCompiler.CompileState.CodeGrammar | 3rd/skynet/3rd/lpeg/lpcode.c:840-856 | the same for grammars, with positions recorded while coding and calls corrected in place |
| PegCompiler.CompileState.CorrectCallsFrom | 3rd/skynet/3rd/lpeg/lpcode.c:816-833 | the in-place pass over the rules ends in the specified corrected code and touches nothing before them |
| PegCompiler.CompileState.FinalTargetOf | 3rd/skynet/3rd/lpeg/lpcode.c:614-618 | the loop over jumps returns where they end |
| PegCompiler.CompileState.Peephole | 3rd/skynet/3rd/lpeg/lpcode.c:928-967 | the pass ends; its result is related to the old code by the relation that preserves answers; no label points at a jump any more and no jump at an unconditional transfer |
| PegCompiler.CompileState.Compile | 3rd/skynet/3rd/lpeg/lpcode.c:973-982 | for every well-formed pattern without left recursion in which the question for captures ends, every subject and position: compiling ends, and whenever matching has an answer the finished code gives that answer |
| PegVm.Run | 3rd/skynet/3rd/lpeg/lpvm.c:147-351 | the interpreter loop over `p`, `s` and a doubling stack finds the answer of the machine, or reports an overflow, and that if and only if a step of the machine needs more entries than allowed |
| PegVm.Execute | 3rd/skynet/3rd/lpeg/lpvm.c:147-351 | each instruction does to position and stack what the machine's step says, and none of the interpreter's assertions fails |
| PegVm.BacktrackStack.DoubleStack | 3rd/skynet/3rd/lpeg/lpvm.c:64-81 | growing the stack keeps its contents and makes room; it is an error exactly if the stack has its maximum size |
| PegFixed.FixKeeps | 3rd/skynet/3rd/lpeg/lptree.c:100-126 | adjusting a pattern before it is compiled changes nothing that the check of grammars, the analyses and the compiler ask of it, nor its meaning |
| PegVm.MatchPattern | 3rd/skynet/3rd/lpeg/lptree.c:1149-1174 | adjusting, compiling and running returns the meaning of the pattern, or the overflow, and that if and only if the run of the code needs more entries than allowed |
| PegVm.MatchAccepted | 3rd/skynet/3rd/lpeg/lptree.c:1149-1174 | for an accepted pattern without left recursion in which the question for captures ends, matching returns, with the meaning of the pattern unless the stack overflows |
| PegGrammar.VerdictNullable | 3rd/skynet/3rd/lpeg/lptree.c:995-1035 | where it does not give up, the check (keeping `nb`) returns whether the pattern, or something before it, is nullable |
| PegGrammar.VerifyRuleIn | 3rd/skynet/3rd/lpeg/lptree.c:995-1035 | the check with its array of passed rules returns the specified verdict, and an error names a rule that can come to call itself first |
| PegGrammar.VerifyError | 3rd/skynet/3rd/lpeg/lptree.c:972-983 | the error names a rule that occurs twice among those passed, or says there is none |
| PegGrammar.LeftCallsExact | 3rd/skynet/3rd/lpeg/lptree.c:995-1056 | with `nb` kept at embedded grammars the check passes exactly the patterns without left recursion; the check as it is accepts those too |
| PegGrammar.RankedVerified | 3rd/skynet/3rd/lpeg/lptree.c:995-1035 | no grammar without left recursion runs into too many calls, whatever its size up to the limit on rules |
| PegExact.PlainExact | 3rd/skynet/3rd/lpeg/lptree.c:995-1035 | for grammars that embed no other ones the check of left recursion as it is passes exactly those without |
| PegExact.CheckLoopsExact | 3rd/skynet/3rd/lpeg/lptree.c:952-969 | an empty loop is reported if and only if some part of the pattern, embedded grammars aside, is a repetition of something nullable |
| PegExact.VerifyGrammarExact | 3rd/skynet/3rd/lpeg/lptree.c:1041-1056 | a grammar is accepted if and only if no rule that is the first or called by a part of some rule runs into too many calls or has an empty loop |
| PegExact.GoodAccepted | 3rd/skynet/3rd/lpeg/lptree.c:995-1056 | so every grammar within the limit on rules, without left recursion and without such a loop in such a rule is accepted |
| PegExact.GoodVerified | 3rd/skynet/3rd/lpeg/lptree.c:995-1056 | and every pattern all of whose grammars are like that |
| PegGrammar.AcceptedTerminates | 3rd/skynet/3rd/lpeg/lptree.c:952-1056 | matching an accepted pattern without left recursion, whose look-behinds call nothing, ends on every subject |
| PegLimits.EmbeddedGrammarMissed | 3rd/skynet/3rd/lpeg/lptree.c:1031-1032 | a pattern that is accepted, is left recursive and never finishes |
| PegLimits.BehindCallMissed | 3rd/skynet/3rd/lpeg/lptree.c:1002-1003 | the same through the body of a look-behind |
| PegLimits.LookingBackMissed | 3rd/skynet/3rd/lpeg/lptree.c:1002-1003 | a look-behind that keeps an accepted pattern without left recursion from finishing |
| PegLimits.AskedForEver | 3rd/skynet/3rd/lpeg/lpcode.c:693-695 | an accepted pattern without left recursion on which the question for captures never ends |
| PegLimits.CompiledJumps | 3rd/skynet/3rd/lpeg/lpcode.c:928-967 | in the code of a whole pattern following jumps ends if and only if it does by its tree |
| PegLimits.JumpsForEver | 3rd/skynet/3rd/lpeg/lpcode.c:928-967 | an accepted pattern in whose code following jumps never ends |
| PegLimits.RuleNumbersWrap | 3rd/skynet/3rd/lpeg/lptree.c:930-946 | an accepted grammar with 257 rules on which the machine's answer is not the meaning of the pattern |
| PegBuild.CorrectAssociativity | 3rd/skynet/3rd/lpeg/lptree.c:78-90 | moving nodes within the flat array turns exactly this subtree into its rotated form |
| PegBuild.FinalFix | 3rd/skynet/3rd/lpeg/lptree.c:100-126 | the in-place pass over a tree ends in the tree with all its sequences and choices right associative, everything around it unchanged |
| PegBuild.FixChain | 3rd/skynet/3rd/lpeg/lptree.c:100-126 | the same over the rule nodes of a new grammar |
| PegBuild.FixMeaning | 3rd/skynet/3rd/lpeg/lptree.c:70-126 | adjusting a pattern and the rules around it keeps its meaning |
| PegBuild.FixRightNested | 3rd/skynet/3rd/lpeg/lptree.c:70-126 | afterwards no sequence or choice has one of its own kind as first part |
| PegOperators.OperatorsMean | 3rd/skynet/3rd/lpeg/lptree.c:532-646 | the shortcuts of sequence, choice and difference keep what the operators mean |
| PegOperators.AtLeastMeans | 3rd/skynet/3rd/lpeg/lptree.c:572-602 | `p^n` matches `n` times and then as often as possible |
| PegOperators.AtMostMeans | 3rd/skynet/3rd/lpeg/lptree.c:572-602 | `p^-n` matches as often as possible, at most `n` times |
| TimerSlots.TickPlace | 3rd/skynet/skynet-src/skynet_timer.c:71-136 | what one tick, wrapping or not, does to the slot a timer belongs in: it changes only for timers in the list that is moved |
| TimerWheel.Wheel.AddNode | 3rd/skynet/skynet-src/skynet_timer.c:71-90 | exactly the list the expiry belongs in gets the node, at its end |
| TimerWheel.Wheel.TimerAdd | 3rd/skynet/skynet-src/skynet_timer.c:92-103 | a timer of less than 2^31 ticks joins the pending ones, due that many ticks from now |
| TimerWheel.Wheel.MoveList | 3rd/skynet/skynet-src/skynet_timer.c:105-113 | a list is emptied and its nodes go, in order, where they belong now; all other nodes stay |
| TimerWheel.Wheel.TimerShift | 3rd/skynet/skynet-src/skynet_timer.c:115-136 | after the tick's cascades every list again holds what the plain list of timers says, in order |
| TimerWheel.Wheel.DispatchList | 3rd/skynet/skynet-src/skynet_timer.c:138-154 | each timer of a list has its own event, handle and session, pushed, in order |
| TimerWheel.Wheel.TimerExecute | 3rd/skynet/skynet-src/skynet_timer.c:156-167 | what is due now is dispatched, including timers other threads add in between, and nothing due is left; the events pushed are those of the timers dispatched, one each |
| TimerWheel.Wheel.TimerUpdate | 3rd/skynet/skynet-src/skynet_timer.c:169-182 | for every tick up to now, the timers dispatched on it are those added for it, in the order they were added, and the events pushed are theirs |
| TimerWheel.ExactlyOnce | 3rd/skynet/skynet-src/skynet_timer.c:138-182 | so a timer is dispatched as often as it was added, each time on its own tick and with its own event |
| ServiceQueue.MessageQueue.Push | 3rd/skynet/skynet-src/skynet_mq.c:189-209 | appends to the contents, doubling a full ring, and says whether the queue has to be scheduled |
| ServiceQueue.MessageQueue.ExpandQueue | 3rd/skynet/skynet-src/skynet_mq.c:174-187 | doubling a full ring keeps its messages in order |
| ServiceQueue.MessageQueue.Pop | 3rd/skynet/skynet-src/skynet_mq.c:137-172 | takes the first message, or marks an empty queue as not scheduled; overload and its threshold follow the length |
| ServiceQueue.RingPop | 3rd/skynet/skynet-src/skynet_mq.c:137-172 | moving the head, with wrap-around, takes the first message off the contents |
| Scheduler.StepInv | 3rd/skynet/skynet-src/skynet_server.c:119-330 | every step of every agent keeps the accounts of references, places and messages of every service |
| Scheduler.Safety | 3rd/skynet/skynet-src/skynet_mq.c:43-250 | in every run a queue is in at most one place, one with messages is in one, messages are dispatched or dropped once and in order, and a queue is gone only when it is empty |
| Scheduler.AssertsHold | 3rd/skynet/skynet-src/skynet_mq.c:43-250 | no assertion about scheduling fails in any run |
| Scheduler.GoneForGood | 3rd/skynet/skynet-src/skynet_mq.c:239-250 | a freed queue is not touched or referred to again, so it is freed once |
| Scheduler.MarkReaches | 3rd/skynet/skynet-src/skynet_server.c:152-158 | the creator's write reaches a live context if and only if its handle stands or somebody else refers to it |
| Scheduler.MarkTooLate | 3rd/skynet/skynet-src/skynet_server.c:152-158 | a run in which it does not |
| Scheduler.PushReaches | 3rd/skynet/skynet-src/skynet_server.c:144-224 | a message sent to a standing handle gets into the queue if and only if the creator has made one |
| Scheduler.PushTooEarly | 3rd/skynet/skynet-src/skynet_server.c:144-145 | a run in which it has not |
| SchedulerRuns.ListStep | 3rd/skynet/skynet-src/skynet_mq.c:43-74 | a worker that asks for a queue gets the first of the global list, if there is one; other steps leave the list or put a queue at its end |
| SchedulerRuns.InTurn | 3rd/skynet/skynet-src/skynet_mq.c:43-74 | in every run the queue at position `j` of the list is in a worker's hands after `j + 1` have been taken |
| SchedulerRuns.ServeFirst | 3rd/skynet/skynet-src/skynet_server.c:297-330 | a worker that is let to go on dispatches the first message of the queue it takes |
| SchedulerRuns.RoundRobin | 3rd/skynet/skynet-src/skynet_server.c:297-330 | and, its turn over, has the first of the other queues in hand and its own behind the last |
| SchedulerRuns.SendAlone | 3rd/skynet/skynet-src/skynet_server.c:217-229 | a send leaves the message behind all others, and the queue scheduled |
| SchedulerRuns.KillAlone | 3rd/skynet/skynet-src/skynet_server.c:196-215 | after a kill the handle is gone, and the queue marked for release if nobody else refers to the context |
| SchedulerRuns.LaunchAlone | 3rd/skynet/skynet-src/skynet_server.c:119-168 | a launch that succeeds leaves an initialized service with its handle, its queue last in the list |
| SchedulerRuns.DropAlone | 3rd/skynet/skynet-src/skynet_mq.c:220-250 | a worker that comes upon a marked queue drops its messages, in order, and frees it |
| SocketWrite.Socket.SendListTcp | 3rd/skynet/skynet-src/socket_server.c:475-505 | one list is written as far as the kernel takes it: order and accounts kept, the rest unchanged, and it stops early only where the last write was cut short |
| SocketWrite.Socket.RaiseUncomplete | 3rd/skynet/skynet-src/socket_server.c:584-599 | the packet begun moves to the empty high list, which keeps the order |
| SocketWrite.Socket.SendBuffer | 3rd/skynet/skynet-src/socket_server.c:609-638 | high priority is written before low, no packet is left begun in the low list, a drained half-closed socket ends, and every round on a willing kernel leaves less to do |
| SocketWrite.Socket.SendSocket | 3rd/skynet/skynet-src/socket_server.c:692-761 | a packet accepted comes behind those of its priority and before waiting ones of lower priority, even when part of it is written at once; a refused one changes nothing |
| SocketWrite.Socket.CloseSocket | 3rd/skynet/skynet-src/socket_server.c:784-809 | a close that is not a shutdown ends the socket only if everything is written or a write fails, and otherwise half-closes it |
| SocketWrite.Socket.ForceClose | 3rd/skynet/skynet-src/socket_server.c:331-352 | the lists are freed and what was waiting is exactly what is lost |
| SocketWrite.Socket.Promise | 3rd/skynet/skynet-src/socket_server.c:475-638 | bytes written are whole packets in the promised order and the beginning of the next; in each priority that order is the order of acceptance; after draining nothing is missing |
| SocketWrite.KeptAccept | 3rd/skynet/skynet-src/socket_server.c:640-678 | inserting a packet behind the high ones, or last, keeps bytes, order and acceptance in step |
| SocketWrite.Poll | 3rd/skynet/skynet-src/socket_server.c:1202-1282 | every command or event keeps all this and does what it is for: a packet that is not refused is accepted, unless the connection breaks, a write event on a willing kernel leaves less to do; bytes once written stay; a half-closed socket accepts and loses nothing unless shut down or broken; a handed-in one stays as it is; the end of a connection is reported |
| SocketWrite.Socket.Heard | 3rd/skynet/skynet-src/socket_server.c:692-826 | a socket with something waiting is told when it can write if and only if it was not handed in |
| SocketWrite.DrainOut | 3rd/skynet/skynet-src/socket_server.c:1202-1282 | a half-closed socket that is watched, on a kernel that takes something of each write, writes everything accepted and ends, by write events alone |
| SocketWrite.HandedIn | 3rd/skynet/skynet-src/socket_server.c:811-826 | a handed-in socket, closed, with an accepted packet and nobody to write it |
| RwLock.Exclusion | 3rd/skynet/skynet-src/rwlock.h:17-48 | in every interleaving of the lock's instructions a writer is inside alone |
| RwLock.StepAllowed | 3rd/skynet/skynet-src/rwlock.h:17-48 | each instruction lets somebody in or out only as a reader/writer lock may |
| RwLock.StepPath | 3rd/skynet/skynet-src/rwlock.h:17-48 | a thread that asked for the lock is outside again only after it was inside, and for what it asked |
| RwLock.NoDeadlock | 3rd/skynet/skynet-src/rwlock.h:17-48 | from every state that can be reached there is a way to one where everybody has been inside and left |
| Stm.TurnConsistent | 3rd/skynet/lualib-src/lua-stm.c:45-113 | every memory access of every agent keeps the references of every copy accounted for |
| Stm.CopiesLive | 3rd/skynet/lualib-src/lua-stm.c:45-113 | in every run a copy that somebody refers to is not freed, and one to which nobody refers is freed or about to be, by one agent |
| Stm.TurnSafe | 3rd/skynet/lualib-src/lua-stm.c:45-102 | what is freed is unreferenced and was not freed before; references are taken only to the current copy, which is alive |
| Stm.FreedStays | 3rd/skynet/lualib-src/lua-stm.c:45-53 | a freed copy is not touched again |
| StmRuns.ReadKept | 3rd/skynet/lualib-src/lua-stm.c:203-228 | a reader that has let go of the lock ends up with the copy whose pointer it loaded, whatever it had before |
| StmRuns.Done | 3rd/skynet/lualib-src/lua-stm.c:45-228 | between being idle twice an agent has got a copy that was the current one since it began, or made its new copy or none the current one and kept what it had, or given that up |
| StmRuns.CopyChanges | 3rd/skynet/lualib-src/lua-stm.c:56-113 | the current copy changes only to the new one of an agent that updates, or to none |
| StmRuns.ReadAlone | 3rd/skynet/lualib-src/lua-stm.c:91-102 | a read that is left alone ends, with the current copy |
| StmRuns.UpdateAlone | 3rd/skynet/lualib-src/lua-stm.c:104-113 | an update that is left alone ends, with its copy as the current one |
| StmRuns.ClearAlone | 3rd/skynet/lualib-src/lua-stm.c:56-70 | taking the copy away ends, with none |
| StmRuns.DeleteAlone | 3rd/skynet/lualib-src/lua-stm.c:192-201 | a reader that is deleted has given up its copy |
| StmOnLock.DoneOnLock | 3rd/skynet/lualib-src/lua-stm.c:45-228 | the same as StmRuns.Done for runs in which the lock's instructions are interleaved |
| StmOnLock.ReadAlone | 3rd/skynet/lualib-src/lua-stm.c:91-102 | with the instructions of the lock, too, a read that is left alone ends with the current copy if the write flag is not set |
| StmOnLock.UpdateAlone | 3rd/skynet/lualib-src/lua-stm.c:104-113 | and an update if nobody is counted as a reader either |
| StmOnLock.Protected | 3rd/skynet/lualib-src/lua-stm.c:45-113 | the same with the lock's instructions interleaved with everything else: a writer alone, copies alive, and the pointer a reader has loaded still current |
| SharedData.Table.FillNoColliding | 3rd/skynet/lualib-src/lua-sharedata.c:210-233 | the first pass fills the array part and gives every main position to a key that belongs there |
| SharedData.Table.FillColliding | 3rd/skynet/lualib-src/lua-sharedata.c:235-270 | the second pass places every other key in a chain behind its main position; its search for a free slot always succeeds |
| SharedData.RoomLeft | 3rd/skynet/lualib-src/lua-sharedata.c:250-256 | while a key of the source is missing there is a free slot |
| SharedData.PutBehind | 3rd/skynet/lualib-src/lua-sharedata.c:257-265 | linking a node behind the main position keeps every chain whole |
| SharedData.Table.ConvTable | 3rd/skynet/lualib-src/lua-sharedata.c:274-323 | the finished table holds the source: array part, full slots, each key once and on its chain |
| SharedData.CountSize | 3rd/skynet/lualib-src/lua-sharedata.c:65-87 | the number of slots is the number of keys outside the array part |
| SharedData.Table.LookupKey | 3rd/skynet/lualib-src/lua-sharedata.c:499-528 | the slot of the key if there is one, including the early exit for slots without collision |
| SharedData.Table.Index | 3rd/skynet/lualib-src/lua-sharedata.c:530-564 | the table answers every 32-bit integer or string key as the source does |
| SharedData.Table.NextKey | 3rd/skynet/lualib-src/lua-sharedata.c:587-644 | from each key to the one behind it in the order of keys, and from none to the first |
| SharedData.AllKeysOnce | 3rd/skynet/lualib-src/lua-sharedata.c:587-644 | that order has no key twice |
| SharedData.KeyVisited | 3rd/skynet/lualib-src/lua-sharedata.c:587-644 | and has exactly the keys of the source |
| NetPack.PackQueue.FindUncomplete | 3rd/skynet/lualib-src/lua-netpack.c:90-112 | takes out what is kept of one stream, if anything, and leaves all others, also those in the same list |
| NetPack.PackQueue.PushData | 3rd/skynet/lualib-src/lua-netpack.c:131-165 | a packet joins the queue at its end, whether the ring is full or not |
| NetPack.PackQueue.PushMore | 3rd/skynet/lualib-src/lua-netpack.c:186-213 | what follows a complete packet is split as the parser splits it: all complete packets queued, the rest kept |
| NetPack.PackQueue.FilterData | 3rd/skynet/lualib-src/lua-netpack.c:225-305 | for every chunk and every state of its stream, exactly the packets it completes are reported or queued, in order, and the stream's state becomes the parser's; other streams are untouched |
| NetPack.ParseConcat | 3rd/skynet/lualib-src/lua-netpack.c:186-305 | for the parser it does not matter where a stream is cut |
| NetPack.Independent | 3rd/skynet/lualib-src/lua-netpack.c:225-305 | however streams are cut and interleaved, the packets of each are the length-prefixed packets of its bytes, in order |
| NetPack.Pack | 3rd/skynet/lualib-src/lua-netpack.c:428-450 | a packet is framed with its length, high byte first, and refused exactly if it has 2^16 bytes or more |
| NetPack.ParseFrames | 3rd/skynet/lualib-src/lua-netpack.c:180-305 | framed packets one after the other are parsed into these packets, with nothing left |
| NetPack.SentArrive | 3rd/skynet/lualib-src/lua-netpack.c:180-450 | of packets that were framed, and cut and interleaved anywhere, the first ones are delivered at any time and all in the end |
| NetPack.FilterAll | 3rd/skynet/lualib-src/lua-netpack.c:225-408 | filtering chunk after chunk and emptying the queue after each delivers just these |
| Seri.WriteBlock.Push | 3rd/skynet/lualib-src/lua-seri.c:63-83 | bytes are appended to what the chain of blocks holds, over block boundaries |
| Seri.WriteBlock.PackOne | 3rd/skynet/lualib-src/lua-seri.c:294-338 | a value is written as its encoding, and it is an error exactly if tables are nested too deep |
| Seri.WriteBlock.Join | 3rd/skynet/lualib-src/lua-seri.c:532-551 | the blocks are copied into one buffer that holds the bytes written |
| Seri.RoundTrip | 3rd/skynet/lualib-src/lua-seri.c:140-338 | an encoded value, whatever follows it, decodes to that value and leaves what follows |
| SeriShort.Shortest | 3rd/skynet/lualib-src/lua-seri.c:140-338 | no shorter byte sequence is read as the value |
| SeriShort.LittleAt | 3rd/skynet/lualib-src/lua-seri.c:140-172 | numbers are written with their lowest byte first |
| Seri.ReadBlock.UnpackOne | 3rd/skynet/lualib-src/lua-seri.c:465-530 | for every input the reader returns what decoding says, or fails where it does |
| Seri.ReadBlock.UnpackTable | 3rd/skynet/lualib-src/lua-seri.c:432-463 | the same for tables, with their size, items and entries |
| Seri.AllOver | 3rd/skynet/lualib-src/lua-seri.c:340-595 | a list of encoded values decodes to the same list |
| Seri.ThereAndBack | 3rd/skynet/lualib-src/lua-seri.c:553-610 | packing any values within the depth limit and unpacking the buffer returns them |
| PowMod.MulModP | 3rd/skynet/lualib-src/lua-crypt.c:664-684 | double-and-add in wrapping 64-bit words gives the product modulo 2^64-59 for a factor up to the modulus |
| PowMod.PowP | 3rd/skynet/lualib-src/lua-crypt.c:686-705 | for every 64-bit base and exponent from 1 on the result is congruent to the power, and which representative it is |
| PowMod.Agree | 3rd/skynet/lualib-src/lua-crypt.c:722-757 | both sides of an exchange compute the same secret |
| PowMod.NeverZero | 3rd/skynet/lualib-src/lua-crypt.c:722-757 | an exchanged value is never 0 modulo the modulus, so the other side accepts it |

## Left out

LPeg:

- Captures, run-time captures and the constants table.
- Character sets are one slot with a set instead of a 32-byte buffer; the code array is a sequence that grows.
- PegOperators.OperatorsMean: `lp_star`'s error for a nullable body, and Lua values that stand for patterns, are not modelled.
- PegBuild.FinalFix: open calls carry the number of their rule from the start; looking names up in the table of positions
  (`fixonecall`) is not modelled.
- PegGrammar.AcceptedTerminates: `BehindsClosed` is sufficient, not necessary: look-behinds may call rules that happen to end.
- PegGrammar.VerdictNullable: is about the check with `nb` kept; as it is, the check forgets it at an embedded grammar.
- PegGrammar.LeftCallsExact: for the check as it is only one half holds (`PegLimits.EmbeddedGrammarMissed`).

Timer, services, sockets:

- Linked lists are sequences; allocation and freeing of nodes is not modelled.
- TimerWheel.Wheel.DispatchList: of the message that is pushed, its handle and session; source and type are always the same.
- TimerWheel.Wheel.TimerUpdate: the wall clock that decides how many ticks to take, and `skynet_timeout` with a time of 0 or less, which
  does not use the wheel.
- Scheduler.Safety: how many messages a turn takes is chosen freely instead of computed from a weight; a callback's own sends,
  launches and kills are steps of other agents; handles are not used again; a message sent before there is a queue is lost,
  where the code follows a pointer that is not set; profiling and monitors are left out.
- UDP, user-object buffers, pipes and the poll calls; `int64_t` overflow of the number of waiting bytes.
- SocketWrite.Poll: ids are known only to those that got them with their connection, so commands for a slot that is
  reserved but not open are not considered.

Lock and memory:

- Copies are told apart by number; what is in them is not modelled.
- The variant of the lock on pthreads; freeing of `stm_object` itself and the assertion that it has a copy.

Shared tables:

- Values are opaque, nested tables are references, and strings among the values are not put into the pool.
- Integer keys beyond 32 bits, which the code truncates: two that agree in their low bits would be one key.
- Table memory, garbage collection and the update control block.

Framing and serialization:

- Freeing of buffers; the listen, open and error messages of the framing filter.
- Strings of 2^31 bytes and more, whose length turns negative where it is read: decoding rejects them.
- Tables with a `__pairs` metamethod, and what the interpreter does with entries it reads (a table is its array part and the
  list of its other entries); memory limits. A floating point number is its eight bytes.

Modular arithmetic:

- Byte order of pushed words, the other ciphers, hashes and base64 of the same file.

Not modelled at all: handle storage, `lua-bson`, harbor, the cluster packers, and everything that talks to the operating system
or to Lua.
