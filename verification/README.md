# State machine engine: models and proofs

This project models parts of a UML style state machine engine in Dafny 4.11 and proves what they promise.
`dafny verify dfyconfig.toml` checks all of it.

- **Step engine** (`Containment`, `Closure`, `Nesting`, `EnteredStates`, `ExitStates`, `Kernel`, `Steps`, `Joins`, `Restarts`,
  `TransitionIndex`, `Triggering`, `Shutdown`, `Engine`, `Runs`, `Samples`). States are numbered from 1, `parent`
  links them into a forest, some are machines, some machines have threads. A configuration is *legal* if every active
  state's machine is active and every active machine has an active child. `Engine.ExecutionContext` is the execution
  context with its arrays; its log records the calls of on_exit, of transition actions and of on_enter. The passes are
  proved against two closed specifications, the least closure upwards and the greatest legal configuration below, and
  those give legality over every run, exact and ordered exit and enter calls, joins, run to completion, and the calls
  at the end.
- **Start configurations** (`StartHull`): the fixpoint that a start directive computes, and when it is legal.
- **Event queue** (`EventQueue`): a ring of events and a second ring that indexes pending unique events refine a
  sequence in which a repeated unique event replaces the pending one.
- **Guards** (`Guards`): memoised substitution with cycle detection.
- **Raw frames** (`Frames`, `FramePatterns`): bit fields at any offset, and trees of typed fields. Bytes are sequences
  of bits, least significant first.
- **Shadow transitions** (`ShadowTransitions`): the order in which a shadowed transition is looked for, and the choice.
- **Arenas** (`PageLists`, `Arena`): doubly linked pages, a shared free list, live counters. Pages are entries of a
  store and pointers are their numbers; addresses are numbers.
- **JSON** (`JsonText`, `JsonTree`, `JsonParse`, `JsonEncoder`, `JsonRoundTrip`): the tokenizer, the length prefixed
  tree, the recursive encoder with its growing buffer, and the traverser. Buffer cells stand for bytes; the first cell
  of a header or value stands for the whole of it. Sizes of headers and values are parameters, a header having at
  least five bytes.
- **Live log** (`Livelog`): the record of an event.

What the system reports from outside is a parameter: whether a guard holds, which event is fetched, what `malloc`
returns, how much memory an arena can give. Actions only leave an entry in the log.

## What the proofs found

- A plain state in a start directive brings along its machine's parent but not its machine
  (`StartHull.StartKeepsLegalIff`, `StartHull.PlainStartIllegal`); nothing else makes a configuration illegal
  (`Steps.EveryRun`).
- The calls of on_exit at the end of a simulation skip every machine that the last enter and exit passes entered; if
  these entered and left no machine, they skip all of them (`Shutdown.ExitedAtEnd`, `Runs.ExitedAfterRun`; a run:
  `Runs.NotExited`).
- Entering a state of an inactive machine enters the Initial state of that machine too, so that both are active
  (`Steps.EnteredIsActive`). For the same reason restarting a machine that is the only active child of another one
  makes the other one's Initial state active beside it (`Restarts.RestartResets`).
- A queued action that makes a guard true is not followed by an epsilon phase, and neither are the assignments and
  frame handlers that run while an event is fetched; these are the only ways in which run to completion fails
  (`Steps.EveryRunCompletes`; both inputs: `Steps.RunToCompletionFails`).
- A start directive calls on_enter for the machines that own the states it names, not for those it makes active. It
  does so exactly once each if and only if the two sets are the same (`Runs.StartBalancesIff`): starting an inner
  machine enters the outer one without a call (`Runs.NotEntered`), naming a state of an active machine calls its
  on_enter again (`Runs.CalledAgain`). Apart from that on_enter and on_exit balance over every run
  (`Runs.CallsBalance`).
- A full event queue that drops a unique event keeps its entry in the index (`EventQueue.AppendKeepsIff`,
  `EventQueue.FullRingLeavesEntry`).
- An allocation that fails has moved all free pages to its arena (`Arenas.Arena.Allocate`,
  `Arenas.RefusalTakesFreePages`).
- Reading a frame shifts the bits of a field's last byte by the whole bytes only, not by the bits read before them
  (`Frames.ReadsStoredIff`); sizing a frame gives untyped leaves no bits while writing gives them 64
  (`FramePatterns.RoomIffTyped`); a negative or too large number never matches the field it was written to
  (`FramePatterns.MatchesIffNumbersFit`); signed fields of other than 8, 16 and 32 bits read every number as negative
  (`FramePatterns.ValueComesBackIff`).
- A number whose exponent has a leading zero is rejected, though section 6 of RFC 8259 allows it
  (`JsonText.NumberReadIff`).
- Asking for the room of a string forgets one byte; growing by a tenth covers it for every header of at least five
  bytes (`JsonEncoder.Scaled`).

## Model

| member | source | states |
|---|---|---|
| Engine.ExecutionContext.Empty | core/include/sm_execution_ctxt.hpp:167-175 | a machine is empty exactly if none of its listed children is active |
| Engine.ExecutionContext.RemoveChildren | core/include/sm_execution_ctxt.hpp:157-165 | everything inside the machine, and nothing else, becomes inactive and marked |
| Engine.ExecutionContext.ComputeEnteredStates | core/src/sm_sim_core_simulation_loop.cpp:500-554 | the result is the least configuration that contains the moved one and is closed under parents, initial states and the threads of the regions that start them, which are exactly determined; the entering list names roots of what is new |
| EnteredStates.StartedUnique | core/src/sm_sim_core_simulation_loop.cpp:500-554 | the moved configuration determines which entered regions start their threads: those without a smaller added state inside and not themselves threads of such a region |
| EnteredStates.SiblingThreadsStayOff | core/src/sm_sim_core_simulation_loop.cpp:500-554 | entering a thread from outside does not start its sibling threads |
| Closure.EnterClosureUnique | core/src/sm_sim_core_simulation_loop.cpp:500-554 | that closure is determined by the moved configuration and the started regions |
| Closure.ClosureAddsOnlyNewStates | core/src/sm_sim_core_simulation_loop.cpp:500-554 | on top of a legal configuration the closure adds only states that were inactive |
| Engine.ExecutionContext.ComputeExitStates | core/src/sm_sim_core_simulation_loop.cpp:556-585 | the result is the greatest legal configuration inside the entered one; the exiting list names roots of what is gone; every machine is left marked |
| Closure.GreatestLegalUnique | core/src/sm_sim_core_simulation_loop.cpp:556-585 | there is only one greatest legal configuration |
| Engine.ExecutionContext.DoExit | core/src/sm_sim_core_simulation_loop.cpp:45-73 | on_exit runs once for each active machine inside a listed root, innermost first, whatever duplicates the list has; afterwards exactly the roots and the child machines of the machines left are marked |
| Engine.ExecutionContext.DoEnter | core/src/sm_sim_core_simulation_loop.cpp:13-42 | on_enter runs once for each machine of the new configuration inside a listed root, innermost first; afterwards exactly the roots and the child machines of the machines entered are marked |
| Nesting.RootsDone | core/src/sm_sim_core_simulation_loop.cpp:13-73 | a traversal that skips marked machines and inactive children visits exactly the machines inside its roots, innermost first |
| Engine.ExecutionContext.RunTriggeredActions | core/src/sm_sim_core_simulation_loop.cpp:450-479 | each fired transition's actions run, in order |
| Engine.ExecutionContext.ComputeEnterAndExitStates | core/src/sm_sim_core_simulation_loop.cpp:983-989 | the new configuration is the pruned closure; exits are exactly the machines of old minus new, enters those of new minus old, each once, innermost first, exits before actions before enters; the marks left are those of Shutdown.MarksAfter |
| Shutdown.ListsTell | core/src/sm_sim_core_simulation_loop.cpp:500-585 | the entering and the exiting list are both empty exactly if the step enters and leaves no machine |
| Shutdown.MarksTell | core/src/sm_sim_core_simulation_loop.cpp:13-73 | which machines the passes leave marked: the outermost entered ones and the children of the entered ones; without entered ones those left and their children; all machines if none was entered or left |
| Engine.CallsExact | core/src/sm_sim_core_simulation_loop.cpp:983-989 | roots computed by the two passes give exactly those exit and enter calls |
| Engine.LocalCalls | core/src/sm_sim_core_simulation_loop.cpp:976-981 | a step within machines calls no on_enter and no on_exit |
| Engine.ExecutionContext.AllThreadsFinal | core/src/sm_sim_core_simulation_loop.cpp:420-430 | all threads of a region have reached a final state |
| Engine.ExecutionContext.TakeJoin | core/src/sm_sim_core_simulation_loop.cpp:417-442 | a due region joins exactly if all its threads are final: threads off, join state on |
| Engine.ExecutionContext.TransitionKernel | core/src/sm_sim_core_simulation_loop.cpp:358-448 | moves and joins are applied in order; over the tables: afterwards a state is active exactly if it is the join state of a region that finishes, or was active after the moves and is no thread of such a region; the flag is set exactly if some transition enters or leaves a machine or changes machines, or some region finishes |
| Joins.FinishedRegionJoins | core/src/sm_sim_core_simulation_loop.cpp:370-442 | when a transition enters the Final state of a thread of a region with a join and after the moves all its threads are in their Final states, everything inside its threads is left and its join state is active exactly if the region stays; and it stays if everything around it is still active and no such join takes it away |
| Joins.JoinsDecide | core/src/sm_sim_core_simulation_loop.cpp:417-442 | after the joins a state is active exactly if it is the join state of a region that finishes, or was active after the moves and is no thread of such a region; the order of the regions does not matter |
| Joins.PassesIff | core/src/sm_sim_core_simulation_loop.cpp:396-447 | the passes are made exactly if some transition enters or leaves a machine or changes machines, or some region finishes |
| Joins.CheckedIff | core/src/sm_sim_core_simulation_loop.cpp:373-396 | a region is checked for joining exactly if some transition enters a Final state two levels below it, inside a thread |
| Kernel.LastMoveDecides | core/src/sm_sim_core_simulation_loop.cpp:373-410 | after all moves a state is active exactly if the last transition that touches it enters it |
| Kernel.RegionsChecked | core/src/sm_sim_core_simulation_loop.cpp:373-396 | the regions collected for joining are exactly those of due targets |
| Kernel.NoJoin | core/src/sm_sim_core_simulation_loop.cpp:417-442 | without a firing region the joins change nothing |
| Kernel.JoinsTouch | core/src/sm_sim_core_simulation_loop.cpp:417-442 | joins change only threads and join states of firing regions |
| Kernel.LocalMovesLegal | core/src/sm_sim_core_simulation_loop.cpp:373-410 | moves within machines keep a configuration legal and every machine as it was |
| Steps.StepKeepsLegal | core/src/sm_sim_core_simulation_loop.cpp:973-1032 | a step with both passes, or without them, ends in a legal configuration |
| Steps.LocalStep | core/src/sm_sim_core_simulation_loop.cpp:973-982 | skipping both passes is sound: it keeps legality and every machine |
| Steps.StepUnique | core/src/sm_sim_core_simulation_loop.cpp:973-1032 | configuration and transitions taken determine the configuration after a step |
| Steps.LeftForGood | core/src/sm_sim_core_simulation_loop.cpp:500-585 | what is inside an active state that was left is inactive afterwards |
| Steps.KeepsSpine | core/src/sm_sim_core_simulation_loop.cpp:556-585 | a machine that stays around with an active plain child is kept, child included |
| Steps.EnteredIsActive | core/src/sm_sim_core_simulation_loop.cpp:500-585 | a state that the moves enter is active after the step if what was active around it is kept: with everything around it, each machine that was inactive with its Initial state even if another state inside it is entered, and a region that the pass comes to first with its threads and their Initial states |
| Steps.JoinTakesThreads | core/src/sm_sim_core_simulation_loop.cpp:417-442 | after a join that does not leave its region no thread nor anything inside one is active; region and join state are |
| Steps.JoinWaits | core/src/sm_sim_core_simulation_loop.cpp:417-442 | a region with a thread that is not final does not join: its threads and join state keep their value |
| Engine.ExecutionContext.TakeTransitions | core/src/sm_sim_core_simulation_loop.cpp:943-1032 | taking triggered transitions is a step, with exactly that step's calls in the log and its marks |
| TransitionIndex.BuildIndexByBuckets | core/src/sm_sim_core_simulation_loop.cpp:633-711 | counting and bucketing builds the index, all accesses in bounds |
| TransitionIndex.BuildIndexByScan | core/src/sm_sim_core_simulation_loop.cpp:646-660 | the nested scan builds the index |
| TransitionIndex.IndexUnique | core/src/sm_sim_core_simulation_loop.cpp:701-709 | both constructions give the same two vectors |
| TransitionIndex.SlotsAt | core/src/sm_sim_core_simulation_loop.cpp:676-687 | behind a state's start the slots hold its transitions in order and an end mark |
| Triggering.ComputeTriggeredTransitions | core/src/sm_sim_core_simulation_loop.cpp:312-354 | the result holds each enabled and reached transition once, and nothing else |
| Triggering.FiredAre | core/src/sm_sim_core_simulation_loop.cpp:318-349 | which transitions fire: the source is active, they are not abstract, their event is the one handled, their guard holds, they are no unguarded epsilon loops, and up to them no transition of their source that is not abstract belongs to another machine than its first one |
| Triggering.FiredWithSharedMachine | core/src/sm_sim_core_simulation_loop.cpp:318-349 | with one machine per source: exactly those with an active source and this event whose guard holds, except abstract ones and unguarded epsilon loops |
| Triggering.SharedMachineReachesAll | core/src/state_machine_simulation_core_buildsms.cpp:351-453 | if transitions with one source share their machine, the indexed scan reaches every transition |
| Triggering.SortUnique | core/src/sm_sim_core_simulation_loop.cpp:944-945 | ascending and without duplicates, same members |
| Triggering.FiredUnique | core/src/sm_sim_core_simulation_loop.cpp:944-945 | which transitions fire, and their order, is determined by configuration, event and guards |
| Engine.ExecutionContext.FindTransitions | core/src/sm_sim_core_simulation_loop.cpp:925-945 | the fired transitions, ascending: with one machine per source exactly those that are not abstract, have an active source and the event handled and a guard that holds, and are no unguarded epsilon loops |
| Engine.ExecutionContext.Prepare | core/src/sm_sim_core_simulation_loop.cpp:633-711 | whatever memory there was, the loop starts with a correct index |
| Engine.ExecutionContext.ReactTo | core/src/sm_sim_core_simulation_loop.cpp:925-1032 | one reaction: fired transitions, new configuration, epsilon flag, calls and marks |
| Engine.ExecutionContext.RestartMachines | core/src/sm_sim_core_simulation_loop.cpp:994-1006 | restarting machines keeps the configuration legal and makes the calls of two steps, first without the machines, then with them |
| Restarts.RestartResets | core/src/sm_sim_core_simulation_loop.cpp:994-1006 | restarting an active machine resets it to its Initial state, its only active plain state; the Initial state of the machine around it becomes active as well exactly if the restarted one was that machine's only active child |
| Restarts.BothActive | core/src/sm_sim_core_simulation_loop.cpp:994-1006 | two nested machines for which a restart of the inner one does this |
| Restarts.PlainNotAdded | core/src/sm_sim_core_simulation_loop.cpp:500-554 | a plain state is added only as the Initial state of a machine that was inactive |
| Engine.ExecutionContext.Iterate | core/src/sm_sim_core_simulation_loop.cpp:873-1035 | one turn of the main loop is a turn of the specification, with the calls and marks of that turn; the configuration stays legal exactly if the turn is no start directive that does not fit; the epsilon phase follows everything fetched but a queued action, and goes on exactly if some epsilon transition fires |
| Engine.ExecutionContext.StartStates | core/src/state_machine_simulation_core_event_handling.cpp:303-339 | afterwards a state is active exactly if it was, or is named, or is a started machine, or the Initial state of one that directly contains no named state; on_enter is called, once each, of the named machines and of the machines around named plain states |
| Steps.TurnKeepsLegal | core/src/sm_sim_core_simulation_loop.cpp:873-1035 | a turn keeps the configuration legal exactly if it is no start directive that does not fit |
| Steps.TurnRunsToCompletion | core/src/sm_sim_core_simulation_loop.cpp:873-957 | after run to completion so far, a turn respects it exactly if neither the fetch nor a queued action makes the guard of an epsilon transition true that only waits for it |
| Steps.EveryRun | core/src/sm_sim_core_simulation_loop.cpp:873-1035 | the configurations of a run are legal exactly as long as its start directives fit |
| Steps.EveryRunCompletes | core/src/sm_sim_core_simulation_loop.cpp:873-1035 | in a run whose start directives fit, the turns respect run to completion exactly as long as none wakes an epsilon transition |
| Steps.StableUnlessAwakened | core/src/state_machine_simulation_core_event_handling.cpp:282-301 | where no epsilon transition is enabled, new guard values enable one exactly if one with an active source has its guard go from false to true |
| Steps.EpsilonPhaseEnds | core/src/sm_sim_core_simulation_loop.cpp:936-957 | the epsilon phase ends only when no epsilon transition is enabled |
| Steps.QueuedActionBreaks | core/src/sm_sim_core_simulation_loop.cpp:150-186 | a queued action that makes an epsilon guard true leaves the loop waiting for an event with an enabled epsilon transition |
| Steps.RunToCompletionFails | core/src/sm_sim_core_simulation_loop.cpp:150-186 | a concrete machine for which a queued action does this, and an assignment in the fetch of an event |
| Engine.ExecutionContext.ExitAll | core/src/sm_sim_core_simulation_loop.cpp:1036-1041 | at the end on_exit runs for exactly the active machines reachable through unmarked ones, with the marks the last step left |
| Nesting.LeavesAllIffUnmarked | core/src/sm_sim_core_simulation_loop.cpp:1036-1041 | with any marks, every active machine is exited at the end exactly if no active machine is marked |
| Shutdown.ExitedAtEnd | core/src/sm_sim_core_simulation_loop.cpp:1036-1041 | with the marks of the last passes, whatever was started since, on_exit runs for exactly the active machines that neither are among the machines these passes moved nor lie inside one, and for none if they entered and left none |
| Shutdown.ExitedIfKept | core/src/sm_sim_core_simulation_loop.cpp:1036-1041 | if the machines have not changed since, these are the machines that were active before the passes and still are |
| Shutdown.AllExitedIff | core/src/sm_sim_core_simulation_loop.cpp:1036-1041 | then no active machine misses its on_exit exactly if none is active, or the passes left some machine and entered none |
| Runs.ExitedAfterRun | core/src/sm_sim_core_simulation_loop.cpp:873-1041 | the exits at the end of every run in which some turn restarts or goes through the passes, whatever is started after the last such turn |
| Runs.ExitedAfterQuietRun | core/src/sm_sim_core_simulation_loop.cpp:873-1041 | if nothing is started after that turn: exactly the machines that were active before its passes and still are |
| Runs.ExitedWithoutPasses | core/src/sm_sim_core_simulation_loop.cpp:873-1041 | a run without passes exits all active machines |
| Runs.TurnMarks | core/src/sm_sim_core_simulation_loop.cpp:973-1015 | a restart and a turn with passes set the marks anew, any other turn keeps them, and apart from start directives it keeps the machines |
| Runs.ActiveAtTheEnd | core/src/sm_sim_core_simulation_loop.cpp:873-1041 | for every start that fits and every machine that it makes active: if the table holds one transition, of that machine to itself, there is a run that ends with all started machines active and no on_exit called |
| Runs.NotExited | core/src/sm_sim_core_simulation_loop.cpp:873-1041 | such a run of one machine with its initial state |
| Runs.StepBalance | core/src/sm_sim_core_simulation_loop.cpp:13-73 | a step calls on_enter and on_exit of a machine as it becomes active and inactive |
| Runs.StartBalancesIff | core/src/state_machine_simulation_core_event_handling.cpp:303-339 | a start directive calls on_enter of exactly the machines it makes active if and only if the owners of the states it names are the started machines that are not active yet |
| Runs.InnerMachineStarted | core/src/state_machine_simulation_core_event_handling.cpp:303-339 | starting an inner machine from nothing makes the machine around it active, but calls on_enter of the inner one only |
| Runs.NotEntered | core/src/state_machine_simulation_core_event_handling.cpp:303-339 | such a run with two machines |
| Runs.CalledAgain | core/src/state_machine_simulation_core_event_handling.cpp:303-339 | starting the initial state of an active machine calls the machine's on_enter again |
| Runs.CallsBalance | core/src/sm_sim_core_simulation_loop.cpp:873-1041 | over every run the calls of on_enter of a machine exceed those of on_exit by one exactly while it is active, up to one call too many or too few for each start directive that names a state of it while it is active, or starts it without naming one |
| StartHull.Hull | core/src/state_machine_simulation_core.cpp:963-993 | the loop ends, with the least set that contains the given states and is closed under machine, initial state and threads |
| StartHull.HullIs | core/src/state_machine_simulation_core.cpp:963-993 | that set in closed form |
| StartHull.StartedIff | core/src/state_machine_simulation_core.cpp:963-993 | a machine is started exactly if a named machine is it or lies inside of it, or a named plain state lies inside of it but not directly, or it is a thread of a started region |
| StartHull.InitialStartedIff | core/src/state_machine_simulation_core.cpp:967-981 | an Initial state that is not named is started exactly if its machine is started and directly contains no named state |
| StartHull.StartedAre | core/src/state_machine_simulation_core.cpp:963-993 | what is started: the named states, the started machines, and the Initial states of those that directly contain no named state |
| StartHull.OwnersAre | core/src/state_machine_simulation_core_event_handling.cpp:303-339 | the machines that own the named states are the named machines and those around the named plain states |
| StartHull.StartLegalIff | core/src/state_machine_simulation_core.cpp:963-993 | from nothing, a start is legal exactly if each named plain state's machine is started by another named state |
| StartHull.StartKeepsLegalIff | core/src/state_machine_simulation_core.cpp:963-993 | in a legal configuration, a start keeps it legal exactly if each named plain state's machine is active or started |
| StartHull.ActivatesIff | core/src/state_machine_simulation_core.cpp:963-993 | the machines active afterwards are those active before and the started ones |
| StartHull.InnerStart | core/src/state_machine_simulation_core.cpp:963-993 | two nested machines: starting the inner one starts the outer one, which owns no named state |
| StartHull.MachinesStartLegal | core/src/state_machine_simulation_core.cpp:963-993 | starting machines is always legal |
| StartHull.PlainStartIllegal | core/src/state_machine_simulation_core.cpp:963-993 | a start with a plain state alone is not: its own machine stays inactive |
| EventQueue.Ringbuffer.Push | core/include/events.hpp:135-158 | appends a record; a full ring drops its oldest one |
| EventQueue.Ringbuffer.Pop | core/include/events.hpp:178-189 | drops the oldest record |
| EventQueue.Ringbuffer.Find | core/include/events.hpp:165-175 | finds a pending record, or none exactly if there is none |
| EventQueue.Ringbuffer.SwapToFrontAndPop | core/include/events.hpp:191-198 | removes the record at an offset; the first one takes its place |
| EventQueue.Eventqueue.Push | core/include/events.hpp:223-234 | a pending unique event is replaced in place, anything else appended, a full ring losing its oldest event; the side ring stays exact exactly under KeepsIndex |
| EventQueue.AppendKeepsIff | core/include/events.hpp:223-234 | appending keeps the side ring exact exactly if no unique event is lost, or the lost one together with its own entry |
| EventQueue.FullRingLeavesEntry | core/include/events.hpp:223-234 | a full ring for which a push leaves the entry of a lost event behind |
| EventQueue.Eventqueue.Pop | core/include/events.hpp:236-244 | removes the oldest event; the side ring stays exact |
| EventQueue.PushedKeepsOnePerId | core/include/events.hpp:223-234 | at most one event per unique id is pending |
| EventQueue.PlainEventsKept | core/include/events.hpp:223-234 | plain events are all kept, in order, over any pushes |
| EventQueue.UniqueEventsCoalesced | core/include/events.hpp:223-234 | over any pushes exactly the latest event of each unique id is pending |
| Guards.GuardsInExpr | core/src/state_machine_simulation_core_guard_handling.cpp:102-121 | collects the guards reachable from an expression; an undefined one is reported with a walk to it |
| Guards.Unfolder.Unfold | core/src/state_machine_simulation_core_guard_handling.cpp:146-189 | terminates on every table; the result is the full substitution, or a walk back onto the path, or to an undefined guard; path and memo stay valid |
| Guards.EvalGuard | core/src/state_machine_simulation_core_guard_handling.cpp:220-266 | undefined exactly if an undefined guard is needed, cyclic exactly if a cycle is, otherwise the one truth that the definitions give; for a guard defined by an operator, what the operator makes of its operands' values, from left to right |
| Guards.BinaryValueIff | core/src/state_machine_simulation_core_guard_handling.cpp:220-266 | the value of an operator expression is what the operator makes of the values of its operands, from left to right |
| Guards.ValueIff | core/src/state_machine_simulation_core_guard_handling.cpp:220-266 | a guard has the value of its definition, symbols and calls that of the system state |
| Guards.TruthUnique | core/src/state_machine_simulation_core_guard_handling.cpp:220-266 | followed to any depth, the definitions give a guard at most one truth |
| Guards.CyclicIffLoop | core/src/state_machine_simulation_core_guard_handling.cpp:244-250 | for operator expressions a cycle is reported exactly if one is reachable |
| Guards.NaiveKeepsMeaning | core/src/state_machine_simulation_core_guard_handling.cpp:146-189 | substituting all guards keeps the value in every system state |
| Guards.NaiveGuardFree | core/src/state_machine_simulation_core_guard_handling.cpp:146-189 | the substituted expression has no guard left |
| Guards.LassoForbidsSubstitution | core/src/state_machine_simulation_core_guard_handling.cpp:172-172 | with a reachable cycle no number of substitutions ends |
| Frames.Cut | core/src/sm_raw_frame.cpp:135-151 | a value is cut to its field; widths without a mask of their own keep one bit more |
| Frames.WriteField | core/src/sm_raw_frame.cpp:134-195 | bits before the field stay, its bits hold the value, no byte behind it changes |
| Frames.ReadField | core/src/sm_raw_frame.cpp:513-551 | what reading a field returns, bit by bit |
| Frames.ReadsStoredIff | core/src/sm_raw_frame.cpp:513-551 | that is the stored value exactly if the field has no part in a begun byte, or none in a last byte, or only zeros there |
| Frames.SixteenReadAsOne | core/src/sm_raw_frame.cpp:543-551 | a field that is read wrongly |
| FramePatterns.FillRawChunk | core/src/sm_raw_frame.cpp:96-262 | a pattern's fields are written one after the other, or only counted; both give the same number of bits |
| FramePatterns.FieldsLaidOut | core/src/sm_raw_frame.cpp:96-262 | what is written and read are the leaves that lie in no section of the other direction, from left to right, each with the width and sign of the innermost type on the path to it, or those given where there is none |
| FramePatterns.LaidOutUnique | core/src/sm_raw_frame.cpp:96-262 | a pattern has only one such list of fields |
| FramePatterns.WrittenField | core/src/sm_raw_frame.cpp:134-262 | each number, and each system state that has a value, stands in the bits behind the widths of the fields before it |
| FramePatterns.SixteenBits | core/src/sm_raw_frame.cpp:137-195 | a number of an unsigned type of sixteen bits takes two bytes, the low one first |
| FramePatterns.SizeFitsIffTyped | core/src/sm_raw_frame.cpp:264-275 | sizing and writing see the same fields if no leaf stands outside of all types; otherwise writing takes at least 64 bits more |
| FramePatterns.RoomIffTyped | core/src/sm_raw_frame.cpp:264-321 | the frame that is made has room for what is written to it exactly if no leaf stands outside of all types |
| FramePatterns.UntypedNumberHasNoRoom | core/src/sm_raw_frame.cpp:264-321 | a number outside of all types: no bytes for 64 bits |
| FramePatterns.GenMsg | core/src/sm_raw_frame.cpp:292-321 | the frame of a data section has as many bytes as the widths of its fields need, these being the leaves in use with the formats of their innermost types, and holds each number and each system state that has a value in its bits |
| FramePatterns.ReadRawChunk | core/src/sm_raw_frame.cpp:344-620 | reading a pattern is reading its fields in order, up to the first number that is not there; signed and unsigned |
| FramePatterns.ReadMsg | core/src/sm_raw_frame.cpp:623-640 | reading a message is reading its data section from the first bit on, leaf by leaf with the format of the innermost type; without bytes nothing is read and nothing fails |
| FramePatterns.ValueComesBackIff | core/src/sm_raw_frame.cpp:564-575 | a system state gets back what was written exactly if it is in the range of its field; signed fields of other than 8, 16 and 32 bits give back negative values only |
| FramePatterns.PositiveComesBackNegative | core/src/sm_raw_frame.cpp:564-575 | 256 in a signed field of 24 bits |
| FramePatterns.FieldReadsBackIff | core/src/sm_raw_frame.cpp:513-551 | a written field reads back exactly under a condition on its offset, width and value |
| FramePatterns.MatchesIffNumbersFit | core/src/sm_raw_frame.cpp:552-560 | a frame matches the numbers it was written from exactly if each fits into its field |
| FramePatterns.NineBitsUnmatched | core/src/sm_raw_frame.cpp:552-560 | 256 in eight bits does not match |
| FramePatterns.MinusOneUnmatched | core/src/sm_raw_frame.cpp:552-560 | -1 in eight bits does not match |
| FramePatterns.StatesReadBack | core/src/sm_raw_frame.cpp:561-592 | a system state gets what its last field keeps of it, with the sign that the field's format gives it |
| FramePatterns.FrameRoundTrip | core/src/sm_raw_frame.cpp:96-620 | a frame read by the pattern it was written by matches exactly if every number fits, and then gives every system state what its last leaf keeps of it, by the width and sign of the innermost type around that leaf |
| ShadowTransitions.LeIsNotTransitive | core/src/sm_sim_core_shadow_states.cpp:23-29 | the order on transitions is not transitive |
| ShadowTransitions.CandidatesAreOrdered | core/src/sm_sim_core_shadow_states.cpp:23-46 | on the candidates of one transition it is a total preorder |
| ShadowTransitions.ChoiceIsUnique | core/src/sm_sim_core_shadow_states.cpp:97-112 | no two outcomes meet the specification of the choice |
| ShadowTransitions.LastTwoDecide | core/src/sm_sim_core_shadow_states.cpp:103-109 | after any sorting, comparing the last two decides between the unique greatest candidate and ambiguity |
| ShadowTransitions.ComputeCompatibleTransitions | core/src/sm_sim_core_shadow_states.cpp:48-64 | all candidates, each once: between the shadowed states, with the same event and no guard or the same guard, or abstract without event and guard |
| ShadowTransitions.Choose | core/src/sm_sim_core_shadow_states.cpp:97-111 | the unique greatest candidate, or ambiguity exactly if two are greatest, or none |
| ShadowTransitions.ChoiceIs | core/src/sm_sim_core_shadow_states.cpp:97-112 | by event and guard: the candidate that matches more closely than all others, event before guard; ambiguous exactly if two match as closely as any |
| ShadowTransitions.ComputeShadowTransitions | core/src/sm_sim_core_shadow_states.cpp:90-114 | every transition both of whose states shadow one gets its choice, unless one has none |
| Arenas.PageSize | core/include/arena.hpp:64-64 | a new page has room for its header and the request |
| Arenas.PageSizeIs | core/include/arena.hpp:64-64 | it is a tenth more than the request, rounded down, and the header |
| Arenas.Arena.TakeFreeBlock | core/include/arena.hpp:53-62 | the first free page, cleared, becomes the last page of the arena; nothing else changes lists |
| Arenas.Arena.AddPage | core/include/arena.hpp:64-74 | a page from the system becomes the last page of the arena; without memory nothing changes |
| Arenas.Arena.MakeRoom | core/include/arena.hpp:50-78 | terminates; free pages join the arena up to the first that has room, or all of them, even if the system then has no memory; success exactly if a page has room or the system has memory |
| Arenas.Arena.Allocate | core/include/arena.hpp:47-85 | a new live block, disjoint from all others, inside a page of its arena and counted there; refused exactly if neither the last page nor a free page has room and the system has no memory, and then all free pages have joined the arena |
| Arenas.RefusalTakesFreePages | core/include/arena.hpp:47-78 | a store of two arenas in which a refused request moves the free page |
| Arenas.Arena.FindPage | core/include/arena.hpp:86-91 | the page of the arena that an address lies in |
| Arenas.PageOfBlock | core/include/arena.hpp:86-91 | for a live block that is the block's page |
| Arenas.BlocksShareNoByte | core/include/arena.hpp:79-83 | two live blocks that share a byte are the same block |
| Arenas.Arena.FreePage | core/include/arena.hpp:93-102 | a page without live blocks moves to the front of the free list |
| Arenas.Arena.FreeBlock | core/include/arena.hpp:127-130 | the block is no longer live; its page heads the free list exactly if that was its last block, no other page changes lists |
| Arenas.Arena.FreeArena | core/include/arena.hpp:116-126 | all blocks of the arena are gone, all others stay; its pages are the first free ones, in order |
| Arenas.Arena.Reallocate | core/include/arena.hpp:104-115 | a new block with the old bytes; the old block is gone; without room and memory nothing is moved |
| JsonText.GetToken | core/include/fast-json.hpp:126-223 | the next token of a text |
| JsonText.ExtractStrValue | core/include/fast-json.hpp:61-99 | the value of a string token |
| JsonText.ExtractSucceeds | core/include/fast-json.hpp:61-99 | extraction succeeds on every string the tokenizer accepts |
| JsonText.EscapeRoundTrip | core/include/fast-json.hpp:171-195 | an escaped string is one token, and its value is the string |
| JsonText.SpelledStringRead | core/include/fast-json.hpp:61-99 | however a string is spelled by section 7 of RFC 8259, its text is one token with that value; of a code unit the value has the low and then the high byte |
| JsonText.NoToken | core/include/fast-json.hpp:126-223 | white space is skipped, and any other character that starts no token is an error |
| JsonText.GluedWord | core/include/fast-json.hpp:196-214 | a letter or digit right behind `true`, `false` or `null` is an error |
| JsonText.LeadingZero | core/include/fast-json.hpp:130-170 | a zero in front of other digits is an error |
| JsonText.NumberReadIff | core/include/fast-json.hpp:130-170 | a number of RFC 8259 is read in full exactly if its exponent has no leading zero |
| JsonText.LongExponentRejected | core/include/fast-json.hpp:155-156 | `1e02` is rejected |
| JsonTree.SizesAddUp | core/include/fast-json.hpp:356-405 | the size in a container's header is that of its front and its children's sizes |
| JsonTree.Traverse | core/include/fast-json.hpp:489-544 | terminates, takes exactly the node's bytes and replays the tree in order |
| JsonParse.OneTree | core/include/fast-json.hpp:440-463 | an accepted text is one value |
| JsonParse.MissingValue | core/include/fast-json.hpp:341-375 | a member without a value is accepted, as a name without a child |
| JsonParse.ExtraCommas | core/include/fast-json.hpp:294-340 | commas in front of an element and behind it are skipped |
| JsonParse.MissingComma | core/include/fast-json.hpp:408-439 | two elements without a comma between them are an error |
| JsonEncoder.Scaled | core/include/fast-json.hpp:278-280 | growing by a tenth, rounded down, makes up for the byte the request for a string leaves out |
| JsonEncoder.BoxClosed | core/include/fast-json.hpp:364-374 | adding what a node has gained to the outer node completes the nesting |
| JsonEncoder.Encoder.Reserve | core/include/fast-json.hpp:276-283 | room for a node, within the buffer; fails only if memory is short of the bytes used and needed |
| JsonEncoder.Encoder.ConsumeString | core/include/fast-json.hpp:274-293 | a string node is added and counted, unless the text is wrong or memory short of that node |
| JsonEncoder.Encoder.ConsumeMember | core/include/fast-json.hpp:341-375 | a member and its element are added, sizes included, unless the text is wrong or memory short of them |
| JsonEncoder.Encoder.ConsumeObject | core/include/fast-json.hpp:376-407 | an object and its members are added, sizes included, unless the text is wrong or memory short of them |
| JsonEncoder.Encoder.ConsumeArray | core/include/fast-json.hpp:408-439 | an array and its elements are added, sizes included, unless the text is wrong or memory short of them |
| JsonEncoder.Encoder.ConsumeElement | core/include/fast-json.hpp:323-340 | what is written, and which token is next, is what the grammar says; failure only for a wrong text or with less memory than 1.1 times twice the bytes it takes |
| JsonEncoder.Read | core/include/fast-json.hpp:466-485 | the bytes used are the encoding of the text's tree, the root's size is the bytes used, and they fit the buffer; every accepted text is encoded if memory is 1.1 times twice the size of its encoding |
| JsonRoundTrip.TextParsedIff | core/include/fast-json.hpp:259-463 | every text of a value by the grammar of RFC 8259, whatever its white space and the spelling of its strings, is accepted, as that value, exactly if no exponent has a leading zero |
| JsonRoundTrip.SpellingDoesNotMatter | core/include/fast-json.hpp:126-223 | every text of a value is read like its canonical text |
| JsonRoundTrip.PrintIsText | core/include/fast-json.hpp:259-463 | the canonical text is one of the texts of a value |
| JsonRoundTrip.TreeReplays | core/include/fast-json.hpp:489-544 | what a traversal sees of the tree of a value is the value: its numbers, strings, arrays, and members with their names, in order |
| JsonRoundTrip.EncodeAndTraverse | core/include/fast-json.hpp:466-544 | encoding any text of a value, with any white space, and traversing the bytes used replays the value; with that much memory it succeeds for every readable value |
| Livelog.WriteEvent | core/src/sm_livelog_storage_utils.cpp:154-162 | the dry run gives the number of bytes written; the record is the event's encoding |
| Livelog.EventLayout | core/src/sm_livelog_storage_utils.cpp:154-162 | the record: the name, a tag, the number of parameters, and the parameters in their order |
| Livelog.StringLayout | core/src/sm_livelog_storage_utils.cpp:87-162 | a string stands behind its tag and its size, which counts the NUL |
| Livelog.VariantLayout | core/src/sm_livelog_storage_utils.cpp:87-162 | numbers stand behind their tags; a parameter without a kind takes no bytes |
| Livelog.ReadEvent | core/src/sm_livelog_storage_utils.cpp:210-218 | reads back name and parameters and takes all bytes of the record |
| Livelog.RecordAndReplay | core/src/sm_livelog_storage_utils.cpp:87-218 | recording and reading an event is the identity for defined parameters and strings without NUL |

## Left out

- The step engine assumes that every machine has a plain initial state, an acyclic containment and, for a complete
  scan, that transitions with one source share their machine and the table stays below 4096 entries.
- Shadow states inside the step, coverage counters, timing, log output, scopes of event signatures, transition
  payloads: not modelled.
- The start that activates covering states (core/src/sm_sim_core_simulation_loop.cpp:852-871) and the handling of
  unhandled errors are not modelled.
- Actions, and system state updates made by frame handlers, assignments and timers during fetches, do not touch the
  configuration; their effect on guards is a parameter of each turn.
- Engine.ExecutionContext.Iterate: from legal configurations; what the loop does after a start directive that does not
  fit is not modelled.
- Engine.ExecutionContext.StartStates: the calls of on_enter come in any order, where the engine takes that of
  addresses.
- EventQueue.Ringbuffer.Find: without its unused offset argument; offsets count records, not bytes.
- Guards.EvalGuard: the test for compound states is not modelled; it only selects unfolding, which leaves an
  expression without guards as it is. Natively implemented guards are a table of truth values.
- FramePatterns.FillRawChunk: without string leaves, encodings per system state and the record of the header's length.
- FramePatterns.GenMsg: for patterns whose frame has room for them, by FramePatterns.RoomIffTyped the typed ones; the
  engine writes others beyond the frame.
- FramePatterns.ReadRawChunk: for frames that hold all fields, because the engine does not look at their size. Signed
  fields of 64 bits keep their bits, where the engine shifts by 64. Patterns carry formats, not the names of types;
  the reader takes `int5` for eight bits, the writer for five, and the reader gives untyped leaves of a `header`
  section one bit, where the writer keeps the width around it.
- Arenas.Arena.Allocate: for at least one byte; the growth factor is the real number 1.1, without rounding.
- Arenas.Arena.Reallocate: for growing blocks; copying more bytes than the new block has is the caller's error.
- Arenas.Arena.FreeBlock: for live blocks.
- ShadowTransitions.Choose: insertion sort stands for the library's sort; ShadowTransitions.LastTwoDecide holds for
  any sorting. Events are numbered from 1, with 0 for none, as the table builder asserts.
- JsonText.GetToken: a number keeps its text, its conversion to a double is not modelled; letters and digits are those
  of ASCII. The lookahead, which nothing sets, is left out.
- JsonEncoder.Read: the buffer is a sequence that grows, taken from an arena that provides up to a given size; the
  arena itself is modelled on its own.
- JsonTree.Traverse: for encodings of trees without NUL in their texts; tags that the encoder never writes are left out.
- Livelog.WriteEvent: numbers and doubles take their bytes as one cell; the log's storage is not modelled.
- Sockets, CAN frames, the virtual machine, the interpreter of expressions, plugins and the command line are not
  part of this model.
