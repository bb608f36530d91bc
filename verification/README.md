# Verified models of the partial-order symbolic executor

This project models the parts of the symbolic executor whose correctness is hardest to see from the
code and proves what they promise, for every input, every run or every reachable state. It needs
nothing but Dafny 4.11: `dafny verify dfyconfig.toml` checks all of it.

## The modules

**Partial-order reduction** (`Por*.dfy`). Events are immutable values that name their predecessors.
`PorEvents` defines causality and depth, `PorConfig` the independence relation, the configuration
with its cached heads, the predecessors the extension builders choose and what committing does.
`PorProtocol` is the state machine of the handlers: what each thread may do next, which event that
builds and what it does to the threads. `PorInvariant`, `PorSteps` and `PorRuns` prove one invariant
of all runs; the rest are its consequences:

- `PorTheorems`: dependent events are causally ordered, mutual exclusion, what the heads of a
  condition variable hold while threads wait, and that the assertions inside the builders hold.
- `PorPredecessors`: what the handlers test and which predecessors the builders choose, said of the
  committed events alone.
- `PorCommute`: two enabled steps of different threads commute if and only if the independence
  relation, corrected for the two kinds of pair it over-approximates, says so.
- `PorSubruns`: every causally closed part of a configuration in which created threads have started is
  the configuration of a run.
- `PorConflicts`: the search for conflicting extensions of lock acquisitions, that each of them is an
  execution of its own, and that those inside the configuration are complete but for one exact case.
- `PorBookkeeping`: the configuration is determined by its events.
- `PorCone`: cones decide causality; the search for outstanding waits equals its simple definition.
- `PorSignals`: which signals are proposed in place of a committed one, and which of them are executions.
- `PorExecution`: the configuration and the thread states as objects that the handlers update in
  place, each handler proved to perform one step of the state machine.

**Deterministic allocator** (`Alloc*.dfy`): the quarantine ring, the layout of slots, bins with bitmap
and finger, the large object heap with its two maps, and the division of the mapping.

**Object contents** (`MemoryExprs`, `MemoryObject`): concrete bytes, two lazily created masks, cached
symbolic bytes and an update list behave as one plain array of bytes under every assignment.

**Constraints** (`Constraint*.dfy`): the visitors and the mutually recursive rewriting of
`ConstraintManager` terminate and keep the conjunction, for every way of rebuilding nodes that keeps
the meaning and that some measure bounds. `ConstraintWords`, `ConstraintCreate` and `ConstraintBinary`
are the executor's own simplifying constructors over the operators of `ConstraintOps`;
`ConstraintRebuild` shows, by the measure of `ConstraintWeight`, that they qualify, and
`ConstraintNormal` that what they build is in normal form. `ConstraintFixes` says what a simplified
expression no longer contains and what adding a constraint does to the list.

**Address spaces** (`AddressSpaces`, `AddressResolution`): copy-on-write is invisible next to spaces
that copy at once; the pruned pointer search equals brute force.

**Array reads and call paths** (`ArraySelects`, `ArrayRewriter`, `CallPaths`): run-length rewrites that
preserve the value, and inclusive statistics that count every node once.

`Options`, `Lists`, `Extrema`, `Arithmetic` and `Bits` are shared helpers.

## What the models assume

- An event's predecessors on a condition variable are a set: the code sorts them by address when it
  allocates the event. Equal events are one event, as the unfolding's deduplication makes them.
- `IsLessThan` compares depths along the thread of the first event, in the causes of the second; the
  code reads the same from the second event's cone, which `PorCone` shows to be equivalent.
- In a run the thread a signal wakes up is any current waiter, as it may be when a schedule is replayed;
  `HandleCondSignal` takes the first one.
- A 64-bit word of the bitmap is the set of its one bits. Addresses and sizes are natural numbers;
  where the code relies on wrap-around (rounding up, the split of a free region) it is written out.
- Operators other than those the constructors look into are a fixed function from operand values to a
  value; an assignment gives the contents of arrays. The constructors compare widths; the model
  compares bounds on values, which `BoundedByWidth` shows to be the same on well-typed expressions.
- `RewriteEqualities` and `UseConstantArrays` are parameters.
- The solver is the set of values a pointer may take, with one of them as an example, without timeouts.
- Object states that address spaces share are kept in one map from references to states, so that
  sharing is explicit.
- Ratios that decide whether a rewrite is worthwhile are compared over the reals; whether more than half
  of the slots hold a solution, which the code decides in floating point, is a parameter.

## Where the code and its documentation or intent differ

- The independence relation calls two notifying signals on one condition variable, and two joins of
  one thread, dependent. Such joins always commute (`JoinsCommute`), such signals exactly if they wake up
  different threads (`SignalsCommute`); they need not be ordered (`JoinsUnordered`, `SignalsUnordered`).
  `CommuteExactly` covers all pairs, and all other dependent pairs are ordered.
- `cex_acquire` proposes no wait2 directly after a wait1 that lies in its own past.
  `ExecutionsProposed` shows that this is the only omission and `InterruptedWait2` that it happens.
- `outstanding_wait1`, given a single event, searches its causes without the event itself, so a wait1 it
  notifies counts as outstanding: `OwnConeAgrees` gives the exact condition, `OwnConeDiffers` a run.
  `cex_notification` starts from the same cone of the thread predecessor of a signal. So it proposes
  signals that are no executions, exactly for waits this predecessor has just notified:
  `SignalProposalExact` shows it and `NotifiedTwice` gives a run.
- `cex_notification` stops at the first event of a thread that follows the signal and takes everything
  below to follow it too. Waits further down need not: `SignalsProposed` states exactly which
  executions are not proposed for this signal, `OvertakenWait` gives a run.
- The assertion before the split of a free region, "Zero (or below) red zone size!", compares the
  wrong way round: `GuardTooWeak` gives sizes it lets through, `RedZonesExact` the exact condition for
  red zones and `LargeObjectHeap.Allocate` what happens to objects that do not fit.
- `resolve` documents that a non-zero `maxResolutions` bounds the result. A limit of one is never
  checked: `LimitKept` gives the exact condition, `LimitOfOneExceeded` an example.
- `may_deallocate` does not recognise a repeated free when the quarantine is unlimited, because
  nothing is stored then: `MayDeallocate` states it exactly, `FreedTwice` is an example.
- The number of different values in a constant array leaves out the last of several elements.
  `CountedExactly` states when that matters, `LastNotCounted` gives an array.
- Select chains compare indices as signed numbers. A range of several elements that reaches `2^(w-1)`
  from below is never hit; `BuildConstantSelect` and `BuildMixedSelect` state exactly when the chain
  is nevertheless right, `SignLost` and `MixedLost` give arrays for which it is not.
- The visitor of a single equality does not look at rebuilt nodes again, so the expression it replaces
  may still be there: `VisitChanges` and `VisitNeverKey` say what holds, `SourceSurvives` gives an
  expression. `simplifyExpr` visits operands first, so an expression that is fixed need not become its
  constant: `FixedBecomesConstant` states when it does, `PartFixedFirst` gives constraints.
- Several searches share one flag for inversion. `SharedFlagExact` states exactly when the combined
  condition is the disjunction that is meant, `SharedIndexExact` when searches share indices as well;
  `SharedFlagFails` gives searches for which it is not.
- The mixed form reads one element past the end of its vector exactly if the last element is symbolic
  (`FindMixedRuns`), as in `LooksPast`. The model takes that value as a parameter, and no result
  depends on it.

## Model

| member | source | states |
|---|---|---|
| `PorEvents.CausesIsBefore` | include/por/event/base.h:118-163 | an event is among the causes collected from the predecessors exactly if a chain of predecessor edges leads to it |
| `PorEvents.DepthExact` | include/por/event/base.h:118-163 | the depth of an event is the length of the longest chain of causes that leads to it |
| `PorEvents.BeforeIsShallower` | include/por/event/base.h:118-163 | causes are strictly shallower |
| `PorInvariant.LessThanIsBefore` | include/por/event/base.h:431-456 | between two events of one configuration, comparing depths along a thread decides causality, both ways |
| `PorInvariant.DependenceCases` | lib/Por/event.cpp:13-360 | the case analysis of the independence relation amounts to one symmetric list of dependent pairs |
| `PorInvariant.IndependenceSymmetric` | lib/Por/event.cpp:212-360 | the independence relation is symmetric |
| `PorCone.Insert` | lib/Por/cone.cpp:32-47 | inserting an event and its cone keeps, for every thread, the deepest event of both |
| `PorCone.NewCone` | lib/Por/cone.cpp:49-76 | the cone of a new event is that of its thread predecessor with the others inserted, and holds the deepest cause of every thread |
| `PorCone.DepthByCone` | include/por/event/base.h:138-142 | one more than the greatest depth in the cone is the depth, that is, the length of the longest chain of causes |
| `PorCone.ConeDecidesCausality` | include/por/event/base.h:431-456 | looking up the cone decides causality between events of a run |
| `PorCone.PartConflictFree` | include/por/configuration.h:931-991 | every causally closed part of a reachable configuration is conflict-free, so the search applies to it |
| `PorCone.BlockedIn` | include/por/configuration.h:931-947 | collects the thread-maximal wait1s on the condition variable, shallowest first, each once |
| `PorCone.ScanThread` | include/por/configuration.h:949-988 | walking one thread down, with the pruning by depth, drops exactly the waits notified from there |
| `PorCone.OutstandingWait1` | include/por/configuration.h:931-991 | with its pruning and its matching by thread and depth, the search returns exactly the thread-maximal wait1s that no event of the cone notifies |
| `PorCone.UnnotifiedIsLast` | include/por/configuration.h:931-947 | a wait1 that no event of a causally closed part notifies is the last event of its thread there, so looking at the cone misses none |
| `PorCone.OutstandingAfter` | include/por/configuration.h:993-1002 | given events, the search returns exactly the wait1s nobody notifies among them and their causes; given a single event, among its causes only |
| `PorCone.OwnConeAgrees` | include/por/configuration.h:993-998 | leaving out the single event makes no difference if and only if it neither waits on the condition variable nor notifies a wait on it |
| `PorCone.OwnConeDiffers` | include/por/configuration.h:1153-1154 | a run in which the cone of a signal reports the wait it has just notified |
| `PorSignals.WaitsDown` | include/por/configuration.h:1041-1069 | walking one thread down from its head finds, each once, its wait1s on the condition variable beside the past of the signal, and none if the head follows the signal |
| `PorSignals.WaitsBeside` | include/por/configuration.h:1041-1069 | over all threads, the wait1s beside the past of the signal |
| `PorSignals.ProposeSignals` | include/por/configuration.h:1149-1168 | proposes, each once, a signal in the same place for exactly the waits that are outstanding below its thread predecessor or beside its past, other than the one it wakes up |
| `PorSignals.WakeableExecutes` | include/por/configuration.h:1149-1168 | a run inside the configuration, without the signal and its successors, lets the thread wake up a wait in place of it if and only if the wait is of another thread, does not follow the signal and is not notified up to the thread predecessor |
| `PorSignals.SignalProposalExact` | include/por/configuration.h:1153-1167 | a proposed signal is an execution if and only if its thread predecessor does not already notify the same wait |
| `PorSignals.SignalsProposed` | include/por/configuration.h:1047-1048 | a signal that is an execution is proposed if and only if its wait is in the past of the thread predecessor or the head of the waiting thread does not follow the signal |
| `PorSignals.NotifiedTwice` | include/por/configuration.h:1153-1154 | a run in which a signal is proposed that is no execution |
| `PorSignals.OvertakenWait` | include/por/configuration.h:1047-1048 | a run in which an execution is not proposed because the woken thread has come to follow the signal |
| `PorSteps.CreateThreadOwed` | include/por/configuration.h:351-362 | a thread creation extends the run: it is above everything it depends on |
| `PorSteps.InitThreadOwed` | include/por/configuration.h:364-375 | the first event of a thread extends the run and follows its creation |
| `PorSteps.JoinOwed` | include/por/configuration.h:377-389 | a join extends the run and is above the exit it waits for |
| `PorSteps.ExitOwed` | include/por/configuration.h:391-401 | an exit extends the run: it is above everything it depends on |
| `PorSteps.CreateLockOwed` | include/por/configuration.h:403-415 | a lock creation extends the run when the id is unused |
| `PorSteps.AcquireOwed` | include/por/configuration.h:437-455 | an acquisition follows the last event on its lock, which is releasing, or opens the lock |
| `PorSteps.ReleaseOwed` | include/por/configuration.h:457-468 | a release follows the acquisition of its own thread |
| `PorSteps.CreateCondOwed` | include/por/configuration.h:470-481 | a condition variable creation extends the run when the id is unused |
| `PorSteps.Wait1Owed` | include/por/configuration.h:509-569 | a wait1 with the predecessors filtered from the heads is above every creation, broadcast and lost signal on its condition variable |
| `PorSteps.Wait2Owed` | include/por/configuration.h:572-610 | a wait2 is above every notification its thread ever received and above the last event on its lock |
| `PorSteps.LostOwed` | include/por/configuration.h:626-684 | a notification that wakes up nobody is above every creation, wait1 and notifying event on its condition variable |
| `PorSteps.SignalOwed` | include/por/configuration.h:662-698 | a notifying signal with the woken wait1 as only predecessor is above everything it depends on, including earlier signals to the same thread, signals to other threads aside |
| `PorSteps.BroadcastOwed` | include/por/configuration.h:701-774 | a notifying broadcast is above every wait1 and every notification on its condition variable |
| `PorInvariant.AddCondHeads` | include/por/configuration.h:268-319 | committing keeps the heads of every condition variable exact: its creation, all signals and broadcasts, and the outstanding wait1s, each once |
| `PorInvariant.AddLockLinks` | include/por/configuration.h:236-287 | committing keeps every lock a chain linked by lock predecessors |
| `PorInvariant.AddThreadChains` | include/por/configuration.h:226-233 | committing keeps every thread a chain that ends in its head |
| `PorRuns.StepKeepsInv` | lib/Core/SpecialFunctionHandler.cpp:966-1202 | every step of every handler keeps the whole invariant of runs |
| `PorRuns.ReachableInv` | include/por/configuration.h:226-347 | the invariant holds in every reachable state |
| `PorTheorems.DependentEventsOrdered` | lib/Por/event.cpp:212-360 | in every reachable configuration dependent events are causally ordered, except on different threads two joins, or two signals that wake up different threads |
| `PorTheorems.WaitsOrderedWithBroadcasts` | include/por/configuration.h:509-540 | each wait1 is ordered with each creation, broadcast and lost signal on its condition variable |
| `PorTheorems.ExtensionsConcurrent` | include/por/configuration.h:226-347 | two different extensions of one configuration are causally unordered |
| `PorTheorems.OwnershipExact` | lib/Core/SpecialFunctionHandler.cpp:995-1031 | the ownership test of the handlers holds exactly if the thread acquired the lock and has not released it since |
| `PorTheorems.MutualExclusion` | lib/Core/Thread.cpp:98-115 | at most one thread holds a lock in any reachable state |
| `PorTheorems.ReleasedBetween` | include/por/configuration.h:236-287 | between an acquisition and any later event on the lock lies a release by the owner |
| `PorTheorems.BlockedThreadHeads` | include/por/configuration.h:273-319 | a thread in the first phase of a wait has its wait1 exactly once among the heads and no notifier; in the second phase the wait1 is gone and exactly one notifier is there |
| `PorTheorems.BuilderAssertionsHold` | include/por/configuration.h:351-774 | the assertions of the builders never fail on a run: the acting thread exists and has neither exited nor, but for a wait2, fallen asleep; the lock and the condition variable it needs have heads; woken threads wait there, and a lost notification finds nobody waiting |
| `PorTheorems.ActorAssertionsHold` | include/por/configuration.h:351-640 | in every state that keeps the invariant, an enabled operation has a thread that exists, has not exited and is at a wait1 exactly for a wait2, an existing lock to give up or take back, and an unused id for a new thread |
| `PorPredecessors.LockFreeExact` | include/por/configuration.h:180-197 | in every reachable state a lock can be acquired if and only if no thread holds it |
| `PorPredecessors.LockUnusedExact` | include/por/configuration.h:403-415 | a lock can be created if and only if there is no event on it |
| `PorPredecessors.CondUnusedExact` | include/por/configuration.h:470-481 | a condition variable can be created if and only if there is no event on it |
| `PorPredecessors.LockPredecessorExact` | include/por/configuration.h:437-610 | the lock predecessor of an acquisition, release or wait is the last event on the lock, and none if there is none |
| `PorPredecessors.ThreadPredecessorExact` | include/por/configuration.h:351-774 | the thread predecessor of every event is the last event of its thread |
| `PorPredecessors.WaitersExact` | lib/Core/SpecialFunctionHandler.cpp:1133-1141 | the waiters are exactly the threads of the wait1s that nobody has notified, and these are their last events |
| `PorPredecessors.Wait1Exact` | include/por/configuration.h:509-569 | a wait1 is linked to exactly the creation, the broadcasts and the lost signals on its condition variable that are not among the causes of its thread predecessor |
| `PorPredecessors.LostExact` | include/por/configuration.h:626-684 | a lost notification is linked to exactly the creation and the non-lost notifications on its condition variable that are not among the causes of its thread predecessor |
| `PorPredecessors.SignalExact` | include/por/configuration.h:662-698 | a signal is linked to the outstanding wait1 of the thread it wakes up and nothing else |
| `PorPredecessors.BroadcastExact` | include/por/configuration.h:701-774 | a broadcast is linked to exactly all outstanding wait1s, and the signals that woke up other threads and are not among the causes of its thread predecessor |
| `PorPredecessors.Wait2Exact` | include/por/configuration.h:572-610 | a wait2 is linked to the one event that notified its wait1 |
| `PorPredecessors.JoinExact` | include/por/configuration.h:377-389 | a thread can be joined if and only if it has exited, and the join is linked to its exit |
| `PorPredecessors.SpawnExact` | lib/Core/ExecutionState.cpp:164-178 | the id of a new thread is that of its parent with the number of creations by the parent so far, plus one |
| `PorCommute.Persists` | include/por/configuration.h:437-774 | after a commuting step another step is still enabled and builds the same event |
| `PorCommute.CommitAllCommutes` | include/por/configuration.h:226-347 | committing the events of two commuting steps in either order gives the same heads |
| `PorCommute.Diamond` | include/por/configuration.h:226-774 | commuting steps can be taken in either order with the same events and the same resulting state |
| `PorCommute.CommuteExactly` | lib/Por/event.cpp:212-360 | in every reachable state two enabled steps of different threads that build events commute if and only if these are independent, two joins, or notifying signals that wake up different threads |
| `PorCommute.JoinsCommute` | lib/Por/event.cpp:126-135 | two joins of one thread always commute although the relation calls them dependent |
| `PorCommute.SignalsCommute` | lib/Por/event.cpp:299-322 | two signals of one condition variable, always called dependent, commute exactly if they wake up different threads |
| `PorCommute.JoinsHappen` | lib/Core/SpecialFunctionHandler.cpp:943-964 | a run leads to two threads about to join a third |
| `PorCommute.SignalsHappen` | lib/Core/SpecialFunctionHandler.cpp:1105-1156 | a run leads to two threads about to signal two waiters of one condition variable |
| `PorCommute.CommutingUnordered` | lib/Por/event.cpp:212-360 | after two commuting steps both events are in one reachable configuration, causally unordered |
| `PorCommute.JoinsUnordered` | lib/Por/event.cpp:126-135 | a reachable configuration holds two dependent joins that are not ordered |
| `PorCommute.SignalsUnordered` | lib/Por/event.cpp:299-322 | a reachable configuration holds two dependent notifying signals that are not ordered |
| `PorSubruns.StepReplays` | include/por/configuration.h:351-784 | a step can be replayed in any causally closed part of a run that has its causes, and builds the same event |
| `PorSubruns.PartReachable` | include/por/configuration.h:226-784 | every causally closed part of a reachable configuration in which created threads have started is itself the configuration of a run |
| `PorConflicts.ReachableHistory` | lib/Core/ExecutionState.cpp:164-290 | every thread is linked by thread predecessors without gaps, created threads have started, a wait1 is followed only by its wait2 and an exit by nothing |
| `PorConflicts.DescendToPast` | include/por/configuration.h:792-825 | descending the chain of lock events ends at the last one in the past of the acquisition |
| `PorConflicts.CexAcquire` | include/por/configuration.h:787-868 | the conflicting extensions of a lock_acquire or wait2 are exactly one for each releasing lock event before its predecessor and not before the last one in its past, and the one without predecessor when its past has none |
| `PorConflicts.ProposalExecutes` | include/por/configuration.h:787-868 | every conflicting extension is an execution: a run inside the configuration, without the event and its successors, ends with it |
| `PorConflicts.ExecutionsProposed` | include/por/configuration.h:787-868 | whenever the acquisition is possible inside the configuration after the same thread predecessor, it is the event itself or is proposed; exactly a wait2 right after a wait1 in its own past is not |
| `PorConflicts.InterruptedWait2` | include/por/configuration.h:835-848 | the exception happens whenever another thread uses the lock between a notified wait and its wait2 |
| `PorConflicts.InterruptedWait2Happens` | lib/Core/SpecialFunctionHandler.cpp:1040-1156 | a run leads to that situation |
| `PorBookkeeping.ReachableBookkeeping` | include/por/configuration.h:112-119 | the wait2 lists are exact and the used ids are those with heads |
| `PorBookkeeping.ConfigurationFromEvents` | include/por/configuration.h:103-119 | two runs that commit the same events end with the same configuration |
| `PorExecution.Configuration.Commit` | include/por/configuration.h:226-347 | the in-place update, with its search and removal loops, is the commit the theorems are about |
| `PorExecution.Configuration.CanAcquireLock` | include/por/configuration.h:180-197 | decides whether the last event on the lock releases or creates it, or it is unused; `LockFreeExact` says that this is that no thread holds it |
| `PorExecution.ReplaceWoken` | include/por/configuration.h:288-303 | find and overwrite replaces the first woken wait1 and nothing else |
| `PorExecution.RemoveWoken` | include/por/configuration.h:304-319 | remove-and-erase drops exactly the woken wait1s and keeps the order |
| `PorExecution.Wait1Predecessors` | include/por/configuration.h:509-540 | the filtering loop yields the predecessors of a wait1; `Wait1Exact` says which events these are |
| `PorExecution.LostNotificationPredecessors` | include/por/configuration.h:626-659 | the filtering loop yields the predecessors of a lost notification; `LostExact` says which events these are |
| `PorExecution.EarlierSignals` | include/por/configuration.h:741-770 | the filtering loop yields the signals a broadcast keeps as predecessors; `BroadcastExact` says which events these are |
| `PorExecution.FindNotifier` | include/por/configuration.h:572-590 | the loop finds the notification that woke up a wait1, or that there is none |
| `PorExecution.Execution.constructor` | include/por/configuration.h:131-145 | a new execution is in the initial state |
| `PorExecution.Configuration.constructor` | include/por/configuration.h:131-145 | a new configuration holds the start of the main thread |
| `PorExecution.Execution.BlockThread` | lib/Core/ExecutionState.cpp:216-254 | blocking changes the phase of one thread and nothing else |
| `PorExecution.Execution.RunThread` | lib/Core/Executor.cpp:5640-5662 | running a thread succeeds exactly if what it waits for is there, and then acquires the lock |
| `PorExecution.Execution.HandleLockAcquire` | lib/Core/SpecialFunctionHandler.cpp:966-981 | blocks the thread on the lock |
| `PorExecution.Execution.HandleLockRelease` | lib/Core/SpecialFunctionHandler.cpp:983-1038 | releases the lock exactly if the thread holds it, and otherwise changes nothing |
| `PorExecution.Execution.HandleCondWait` | lib/Core/SpecialFunctionHandler.cpp:1040-1103 | waits exactly if the thread holds the lock, and otherwise changes nothing |
| `PorExecution.Execution.HandleCondSignal` | lib/Core/SpecialFunctionHandler.cpp:1105-1156 | wakes up the waiter with the least id if there is any |
| `PorExecution.Execution.FirstWaiter` | lib/Core/SpecialFunctionHandler.cpp:1133-1142 | the loop over the threads in the order of their ids finds the least waiter, or that there is none |
| `PorExecution.Execution.HandleCondBroadcast` | lib/Core/SpecialFunctionHandler.cpp:1158-1202 | wakes up exactly the current waiters |
| `AllocQuarantine.FirstInFirstOut` | include/pseudoalloc/pseudoalloc.h:225-246 | putting an object in moves the oldest out exactly when the quarantine is full |
| `AllocQuarantine.HeldInRing` | include/pseudoalloc/pseudoalloc.h:248-253 | what is in quarantine is exactly what sits in the ring |
| `AllocQuarantine.Quarantine.Deallocate` | include/pseudoalloc/pseudoalloc.h:225-246 | the ring buffer is a first-in first-out queue of fixed capacity that loses nothing |
| `AllocQuarantine.Quarantine.AnyOf` | include/pseudoalloc/pseudoalloc.h:248-253 | finds an object exactly if it is in quarantine |
| `AllocSlots.IndexRoundTrip` | include/pseudoalloc/pseudoalloc.h:268-286 | from a slot number to its position, strictly inside the bin, and back |
| `AllocSlots.PosRoundTrip` | include/pseudoalloc/pseudoalloc.h:268-286 | from every position inside the bin to its slot number and back |
| `AllocSlots.LayerAscends` | include/pseudoalloc/pseudoalloc.h:268-279 | the slots of a layer lie in the order of their numbers, two spacings apart |
| `AllocSlots.SlotsApart` | include/pseudoalloc/pseudoalloc.h:268-279 | two different slots with a red zone are more than the slot size apart |
| `AllocSlots.SlotInside` | include/pseudoalloc/pseudoalloc.h:268-279 | a slot with a red zone keeps more than the slot size away from both ends of the bin |
| `AllocSlots.SpacingShrinks` | include/pseudoalloc/pseudoalloc.h:268-279 | the distance between slots never grows with the slot number |
| `AllocSizedHeap.TakeLowest` | include/pseudoalloc/pseudoalloc.h:304-324 | the search from the finger takes the lowest free slot and only that one |
| `AllocSizedHeap.Release` | include/pseudoalloc/pseudoalloc.h:351-373 | freeing makes exactly one slot free, lowers the finger and drops full words at the end |
| `AllocSizedHeap.LowestFreeUnique` | include/pseudoalloc/pseudoalloc.h:304-324 | the slot handed out depends on the set of taken slots only |
| `AllocSizedHeap.SizedHeap.Allocate` | include/pseudoalloc/pseudoalloc.h:304-324 | hands out the lowest free slot; cleared bits stay exactly the live and quarantined slots |
| `AllocSizedHeap.SizedHeap.Deallocate` | include/pseudoalloc/pseudoalloc.h:340-373 | the slot goes through the quarantine and what comes out becomes free |
| `AllocSizedHeap.SizedHeap.MayDeallocate` | include/pseudoalloc/pseudoalloc.h:326-338 | for every pointer inside the bin, true exactly if it is the address of a live slot, or of a freed one when the quarantine is unlimited |
| `AllocSizedHeap.FreedTwice` | include/pseudoalloc/pseudoalloc.h:326-338 | with an unlimited quarantine a slot that was allocated and freed may be freed again |
| `AllocSizedHeap.SizedHeap.InUseApart` | include/pseudoalloc/pseudoalloc.h:268-279 | slots in use or in quarantine never come closer than the slot size |
| `AllocTiling.SplitEffect` | include/pseudoalloc/pseudoalloc.h:448-482 | taking a piece out of a free region replaces one free block by free, used, free and keeps the tiling |
| `AllocTiling.MergeEffect` | include/pseudoalloc/pseudoalloc.h:516-583 | giving a block back merges it with the free blocks on both sides, which are the nearest ones, and keeps the tiling |
| `AllocTiling.MergeUndoesSplit` | include/pseudoalloc/pseudoalloc.h:429-584 | freeing what was just allocated restores the row of blocks |
| `AllocTiling.UsedApart` | include/pseudoalloc/pseudoalloc.h:429-485 | used blocks are inside the range with a free block between any two |
| `AllocTiling.Conserved` | include/pseudoalloc/pseudoalloc.h:419-584 | free and used bytes always add up to the whole range |
| `AllocLargeHeap.SplitSound` | include/pseudoalloc/pseudoalloc.h:448-453 | in 64-bit arithmetic the three parts add up to the region exactly if the object fits |
| `AllocLargeHeap.RedZonesExact` | include/pseudoalloc/pseudoalloc.h:438-453 | the object goes to the middle of the region, an odd page to the left of it; both red zones are at least a page exactly if the region has two pages to spare |
| `AllocLargeHeap.GuardTooWeak` | include/pseudoalloc/pseudoalloc.h:440 | the assertion before the split lets through an object without red zones and one that does not fit |
| `AllocLargeHeap.TakeLargest` | include/pseudoalloc/pseudoalloc.h:437-446 | takes the last of the largest free regions, leaving the others in their order |
| `AllocLargeHeap.Remove` | include/pseudoalloc/pseudoalloc.h:550-568 | removes exactly one region, and the last of its size takes its place |
| `AllocLargeHeap.RemovePair` | include/pseudoalloc/pseudoalloc.h:527-549 | in a single pass removes the two regions of equal size as if one after the other, the one that comes first before the other |
| `AllocLargeHeap.SplitLargest` | include/pseudoalloc/pseudoalloc.h:437-482 | the last of the largest regions is split; when the object fits, the two maps stay mutually inverse and equal to the free blocks, and the left and then the right part are put behind the regions of their sizes; when it passes the assertion but does not fit, the maps describe no row of blocks |
| `AllocLargeHeap.MergeAround` | include/pseudoalloc/pseudoalloc.h:516-583 | a merge keeps the two maps mutually inverse and equal to the free blocks, and puts the merged region behind those of its size |
| `AllocLargeHeap.LatestAfterSplit` | include/pseudoalloc/pseudoalloc.h:455-482 | after a split each part is the next to be taken of its size, of two equal parts the right one |
| `AllocLargeHeap.LatestAfterMerge` | include/pseudoalloc/pseudoalloc.h:516-583 | after a merge the merged region is the next to be taken of its size |
| `AllocLargeHeap.TakeRightFirst` | include/pseudoalloc/pseudoalloc.h:429-485 | a heap in which two regions of equal size are left and the second object goes to the right one |
| `AllocLargeHeap.LargeObjectHeap.constructor` | include/pseudoalloc/pseudoalloc.h:419-427 | initially one free region, which is a page wide if the heap is |
| `AllocLargeHeap.LargeObjectHeap.Allocate` | include/pseudoalloc/pseudoalloc.h:429-485 | for everything the assertion lets through: an object that fits comes out of the middle of the largest region, the latest of several, whose parts become the latest of their sizes, and the gaps stay a page wide exactly if there were two pages to spare; one that does not fit leaves maps that describe no heap |
| `AllocLargeHeap.LargeObjectHeap.Deallocate` | include/pseudoalloc/pseudoalloc.h:498-584 | the object goes through the quarantine, the block of what comes out is merged with its neighbours and becomes the latest of its size, and gaps that are at least a page wide stay so |
| `AllocLargeHeap.LargeObjectHeap.EverythingFreed` | include/pseudoalloc/pseudoalloc.h:419-584 | with nothing in use and nothing in quarantine both maps are as they were initially |
| `AllocBins.Size2Bin` | include/pseudoalloc/pseudoalloc.h:621-648 | the smallest bin that is large enough, and the large object heap beyond a page |
| `AllocBins.Layout` | include/pseudoalloc/pseudoalloc.h:655-676 | the bins start at the base of the mapping, each where the one before ends, the large object heap takes the rest, and the size of the bins is the largest power of two that leaves as much over |
| `MemoryExprs.CreateRead` | lib/Expr/Expr.cpp:539-587 | rolling back updates changes no value; the result is the last written value when that is decided, the constant when no write can matter, and otherwise a read without the updates that cannot matter |
| `MemoryObject.FoldConstantWrites` | lib/Core/Memory.cpp:143-191 | creating the constant array lazily changes no byte; exactly the oldest writes, as long as they are constant, are folded in |
| `MemoryObject.ObjectState.constructor` | lib/Core/Memory.cpp:75-92 | a new object is all zero and concrete, with and without constant arrays |
| `MemoryObject.ObjectState.Symbolic` | lib/Core/Memory.cpp:95-107 | a symbolic object has the bytes of its array, none of them concrete |
| `MemoryObject.ObjectState.Copy` | lib/Core/Memory.cpp:109-127 | a copy holds the same bytes, concrete where they were |
| `MemoryObject.ObjectState.Fill` | lib/Core/Memory.cpp:209-241 | making the object concrete again sets every byte |
| `MemoryObject.ObjectState.FlushForRead` | lib/Core/Memory.cpp:258-276 | flushing for a read changes no byte |
| `MemoryObject.ObjectState.FlushForWrite` | lib/Core/Memory.cpp:278-306 | flushing for a write empties the cache and changes no byte |
| `MemoryObject.ObjectState.GetUpdates` | lib/Core/Memory.cpp:143-191 | makes sure the update list has an array and changes no byte |
| `MemoryObject.ObjectState.Read8` | lib/Core/Memory.cpp:358-369 | evaluates under every assignment to the byte the object holds, is a constant for a concrete byte and the written expression for a known one |
| `MemoryObject.ObjectState.ReadSymbolic` | lib/Core/Memory.cpp:371-386 | evaluates under every assignment with the offset inside to the byte there |
| `MemoryObject.ObjectState.WriteConcrete` | lib/Core/Memory.cpp:388-395 | changes one byte and makes it concrete |
| `MemoryObject.ObjectState.Write8` | lib/Core/Memory.cpp:397-407 | changes one byte, which becomes concrete exactly if the value is constant and is known otherwise |
| `MemoryObject.ObjectState.WriteSymbolic` | lib/Core/Memory.cpp:409-424 | under every assignment changes the byte at the offset and no other; no byte stays concrete |
| `MemoryObject.ObjectState.WriteWide` | lib/Core/Memory.cpp:500-555 | writes the bytes of a value in the byte order of the target, concrete ones for a constant, and leaves the others as they are |
| `MemoryObject.ObjectState.ReadWide` | lib/Core/Memory.cpp:455-471 | reads the number the bytes stand for in the byte order of the target, as a constant when they are concrete |
| `MemoryObject.ObjectState.WriteWideSymbolic` | lib/Core/Memory.cpp:473-498 | under every assignment with all bytes inside, changes exactly the bytes from the symbolic offset on |
| `MemoryObject.ObjectState.ReadWideSymbolic` | lib/Core/Memory.cpp:428-453 | under every assignment with all bytes inside, reads the number that starts at the symbolic offset |
| `MemoryObject.ObjectState.ReadBack` | lib/Core/Memory.cpp:455-555 | bytes laid out by a write read back as the written number, in either byte order |
| `ConstraintExprs.VisitMeans` | lib/Expr/ExprVisitor.cpp:42-127 | a visit preserves the meaning, under the operators of the program, for every assignment that respects the replacements |
| `ConstraintExprs.Visit` | lib/Expr/Constraints.cpp:33-75 | for every rebuild that some measure bounds, a visit returns the expression itself or a lighter one, so that revisiting rebuilt nodes ends |
| `ConstraintExprs.VisitChanges` | lib/Expr/ExprVisitor.cpp:42-127 | a visit changes an expression if and only if something to be replaced is in it |
| `ConstraintExprs.VisitNeverKey` | lib/Expr/ExprVisitor.cpp:110-119 | the result of a visit is itself nothing to be replaced |
| `ConstraintExprs.VisitSettles` | lib/Expr/ExprVisitor.cpp:96-119 | a visitor that revisits rebuilt nodes leaves nothing to be replaced, however deep |
| `ConstraintFixes.FixesFirst` | lib/Expr/Constraints.cpp:106-122 | of several constraints that fix one expression the first decides |
| `ConstraintFixes.NothingFixedLeft` | lib/Expr/Constraints.cpp:102-125 | in a simplified expression nothing is left that a constraint fixes, however deep, and simplifying again changes nothing |
| `ConstraintFixes.SimplifiesExactly` | lib/Expr/Constraints.cpp:102-125 | simplifying changes an expression if and only if something that a constraint fixes is in it |
| `ConstraintFixes.FixedBecomesConstant` | lib/Expr/Constraints.cpp:102-125 | an expression that is fixed, with nothing fixed below it, becomes the constant of the first constraint that fixes it |
| `ConstraintWeight.BoundedByWidth` | lib/Expr/Expr.cpp:593-620 | on well-typed expressions the bounds the constructors ask for are the widths the code compares |
| `ConstraintWeight.WeightMeasures` | lib/Expr/ExprVisitor.cpp:96-119 | the weights are a measure: constants weigh nothing, a node more than its parts, and lighter parts make a lighter node |
| `ConstraintWords.SumMeans` | lib/Expr/Expr.cpp:752-798 | collecting constants in sums ends and keeps the value modulo the word size |
| `ConstraintWords.DifferenceMeans` | lib/Expr/Expr.cpp:800-848 | collecting constants in differences ends and keeps the value modulo the word size |
| `ConstraintWords.ConcatMeans` | lib/Expr/Expr.cpp:624-643 | merging extractions that follow each other keeps the value |
| `ConstraintWords.ExtractMeans` | lib/Expr/Expr.cpp:676-702 | extracting from a concatenation, on either side or across, keeps the value |
| `ConstraintWords.CastMeans` | lib/Expr/Expr.cpp:716-740 | a cast that keeps the width disappears, one to fewer bits extracts the lower ones, and the value stays |
| `ConstraintOps.ExtensionSolved` | lib/Expr/Expr.cpp:1109-1134 | a constant equals an extended expression if and only if it is the extension of its own lower bits and the expression equals those |
| `ConstraintOps.BitwiseUnits` | lib/Expr/Expr.cpp:872-922 | zero and all ones are the units and zeroes of the bitwise operators, at every width |
| `ConstraintOps.OneBitOperators` | lib/Expr/Expr.cpp:752-1213 | on one bit, sums and differences are exclusive or, products conjunction, shifts and comparisons conjunctions or disjunctions with one side negated |
| `ConstraintCreate.PartialMeans` | lib/Expr/Expr.cpp:1081-1156 | double negation, negated disjunctions, equations with an extended expression and those with a constant summand are solved without changing the value |
| `ConstraintCreate.SelectMeans` | lib/Expr/Expr.cpp:593-620 | turning boolean selects into conjunctions and disjunctions keeps the value |
| `ConstraintCreate.ReadMeans` | lib/Expr/Expr.cpp:539-587 | reading through updates whose indices are decided keeps the value |
| `ConstraintBinary.BinaryMeans` | lib/Expr/Expr.cpp:850-1213 | building products, bitwise operators, shifts and comparisons, on one bit or with a constant that is a unit or a zero, keeps the value |
| `ConstraintBinary.AddMeans` | lib/Expr/Expr.cpp:752-798 | building a sum keeps the value at every width, as an exclusive or at width one |
| `ConstraintBinary.SubMeans` | lib/Expr/Expr.cpp:800-848 | building a difference keeps the value at every width, as an exclusive or at width one |
| `ConstraintRebuild.RebuildMeans` | include/klee/Expr/Expr.h:246 | rebuilding any node keeps its value under every assignment |
| `ConstraintRebuild.RebuildWeight` | include/klee/Expr/Expr.h:246 | rebuilding any node makes it no heavier, although single rules add nodes |
| `ConstraintRebuild.RebuildSimplifies` | lib/Expr/ExprVisitor.cpp:96-119 | the constructors of the executor meet all the visitors ask of a rebuild |
| `ConstraintRebuild.SourceSurvives` | lib/Expr/Constraints.cpp:33-56 | the visitor of one equality may uncover a written value in which what it replaces is still there |
| `ConstraintRebuild.PartFixedFirst` | lib/Expr/Constraints.cpp:58-75 | an expression that is fixed as a whole need not become its constant when a part of it is fixed, too |
| `ConstraintNormal.PartialNormal` | lib/Expr/Expr.cpp:1081-1156 | of normal operands an equation with a constant becomes an expression to no node of which a rule for equations applies |
| `ConstraintNormal.SelectNormal` | lib/Expr/Expr.cpp:593-620 | of normal operands a select becomes normal: no constant condition, no equal branches, no constant boolean branch |
| `ConstraintNormal.SumNormal` | lib/Expr/Expr.cpp:752-798 | of normal operands a sum becomes normal: constants are collected on the left of the whole |
| `ConstraintNormal.DifferenceNormal` | lib/Expr/Expr.cpp:800-848 | of normal operands a difference becomes normal: constants are collected on the left of the whole |
| `ConstraintNormal.BinaryNormal` | lib/Expr/Expr.cpp:850-1213 | of normal operands every other binary operator becomes normal: nothing but exclusive or on one bit, no unit or zero as an operand |
| `ConstraintNormal.ConcatNormal` | lib/Expr/Expr.cpp:624-643 | of normal operands a concatenation becomes normal: no extractions that follow each other |
| `ConstraintNormal.ExtractNormal` | lib/Expr/Expr.cpp:676-702 | of a normal operand an extraction becomes normal, of the width asked for: not of a concatenation, not of everything |
| `ConstraintNormal.ReadNormal` | lib/Expr/Expr.cpp:539-587 | of normal operands a read becomes normal: no decided update, no constant of a constant array |
| `ConstraintNormal.RebuildNormal` | include/klee/Expr/Expr.h:246 | rebuilding any well-typed node whose operands are in normal form gives an expression of the same width in normal form: no rule applies to any of its nodes |
| `ConstraintNormal.VisitNormal` | lib/Expr/ExprVisitor.cpp:42-127 | visiting keeps normal forms and widths |
| `ConstraintManager.Manager.Default` | lib/Expr/Constraints.cpp:167-170 | a manager that rebuilds with these constructors, to which the results below apply |
| `ConstraintVisitor.MemoVisitor.VisitMemo` | lib/Expr/ExprVisitor.cpp:26-40 | remembering visited expressions changes no result, and everything visited is remembered |
| `ConstraintManager.Manager.RewriteConstraints` | lib/Expr/Constraints.cpp:77-96 | rewriting by an equality keeps the conjunction wherever the equality holds; it changes something if and only if the replaced expression is in some constraint; the list is determined in all cases, and when no rewritten constraint fixes anything it is that of all visited constraints, in order, split anew |
| `ConstraintManager.Manager.AddConstraintInternal` | lib/Expr/Constraints.cpp:127-165 | the mutual recursion ends, splits conjunctions and leaves the old conjunction and the new constraint; the list is determined in all cases: the parts are put at the end, an equality with a constant after the others have been rewritten by it |
| `ConstraintManager.Manager.SimplifyExpr` | lib/Expr/Constraints.cpp:102-125 | the simplified expression has the same value under every assignment that satisfies the constraints, and nothing that a constraint fixes is left in it |
| `ConstraintManager.Manager.AddConstraint` | lib/Expr/Constraints.cpp:167-170 | the constraint is simplified first; the list stays equivalent to the old conjunction and the new constraint; the assertion against false constraints cannot fire if there is a solution |
| `AddressSpaces.OwnedIsPrivate` | lib/Core/AddressSpace.h:57-63 | a state owned by the epoch of a space is reachable from that space only |
| `AddressSpaces.WriteSeenByOne` | lib/Core/AddressSpace.cpp:39-52 | a write through one space changes what that space reads for that object and nothing else |
| `AddressSpaces.CopiesExactly` | lib/Core/AddressSpace.cpp:39-52 | a state is copied before a write if and only if the space does not own it, and is owned afterwards |
| `AddressSpaces.OwnedUntilFork` | lib/Core/AddressSpace.h:57-67 | a space owns an object exactly from the time it binds or writes to it until it is forked or unbinds the object |
| `AddressSpaces.StepRefines` | lib/Core/AddressSpace.cpp:24-52 | every copy, bind, unbind and write does to what the spaces read exactly what it does to spaces that copy at once, and keeps the ownership invariant |
| `AddressSpaces.RunRefines` | lib/Core/AddressSpace.h:57-67 | over every sequence of operations on a tree of spaces each space reads what it would read had every fork copied everything |
| `AddressSpaces.Forest.CreateSpace` | lib/Core/AddressSpace.h:66 | a new space has nothing bound |
| `AddressSpaces.Forest.CopySpace` | lib/Core/AddressSpace.h:66-67 | the copy and the original enter a new epoch and share all states |
| `AddressSpaces.Forest.BindObject` | lib/Core/AddressSpace.cpp:24-28 | binds a new state owned by the space |
| `AddressSpaces.Forest.GetWriteable` | lib/Core/AddressSpace.cpp:39-52 | the returned state is reachable from this space only |
| `AddressSpaces.Forest.WriteObject` | lib/Core/AddressSpace.cpp:39-52 | writes through a writeable state |
| `AddressResolution.ResolveConstant` | lib/Core/AddressSpace.cpp:56-74 | finds the object an address is in, or that there is none |
| `AddressResolution.ResolveOne` | lib/Core/AddressSpace.cpp:76-167 | the pruned search finds an object the pointer may be in exactly if there is one: the first, from the example of the solver downwards and then upwards |
| `AddressResolution.CheckPointerInObject` | lib/Core/AddressSpace.cpp:169-201 | adds an object the pointer may be in and says whether to stop |
| `AddressResolution.Resolve` | lib/Core/AddressSpace.cpp:203-286 | exactly the objects the pointer may be in, from the example downwards and then upwards, or the first of them up to a limit of two or more |
| `AddressResolution.LimitKept` | lib/Core/AddressSpace.h:90-101 | the documented limit is kept exactly if it is not one or at most one object can be hit |
| `AddressResolution.LimitOfOneExceeded` | lib/Core/AddressSpace.cpp:183-198 | with a limit of one and a pointer into either of two objects both are returned |
| `ArraySelects.FindRuns` | lib/Expr/ArrayExprOptimizer.cpp:452-471 | finds the maximal runs of equal values; the last of several elements is not counted as a different value |
| `ArraySelects.CountedExactly` | lib/Expr/ArrayExprOptimizer.cpp:452-473 | the number of different values is right if and only if there is a single element or the last one occurs before |
| `ArraySelects.LastNotCounted` | lib/Expr/ArrayExprOptimizer.cpp:452-473 | for 0, 1 only one value is counted |
| `ArraySelects.Group` | lib/Expr/ArrayExprOptimizer.cpp:478-490 | collects the ranges of every value |
| `ArraySelects.BuildConstantSelect` | lib/Expr/ArrayExprOptimizer.cpp:434-573 | every index yields its element, or the least value inside a run of several elements that reaches the sign bit from below; all are right if and only if there is no such run or it has the least value |
| `ArraySelects.SelectedExactly` | lib/Expr/ArrayExprOptimizer.cpp:494-568 | what the chain yields is the whole array if and only if the run of the last element below the sign bit is a single element or has the least value |
| `ArraySelects.HitExact` | lib/Expr/ArrayExprOptimizer.cpp:500-520 | a range test with signed comparisons is right except for ranges of several elements that reach the sign bit from below, which are never hit |
| `ArraySelects.SignLost` | lib/Expr/ArrayExprOptimizer.cpp:509-520 | with the 32-bit index of arrays, 2^31 ones and a zero, index 0 yields zero instead of one |
| `ArraySelects.FindMixedRuns` | lib/Expr/ArrayExprOptimizer.cpp:584-621 | separates the maximal runs of concrete elements from the symbolic ones, whatever lies behind the array, and looks behind it if and only if the last element is symbolic |
| `ArraySelects.BuildMixedSelect` | lib/Expr/ArrayExprOptimizer.cpp:575-682 | every index yields its concrete element or the original read, except inside a run of several elements that reaches the sign bit from below, where it yields what the chain starts with; all are right if and only if there is no such run, or nothing is symbolic and it has the first value |
| `ArraySelects.LooksPast` | lib/Expr/ArrayExprOptimizer.cpp:584-621 | an array for which the search looks behind its last element |
| `ArraySelects.YieldedExactly` | lib/Expr/ArrayExprOptimizer.cpp:624-682 | what the mixed chain yields is the whole array if and only if the run of the last element below the sign bit is a single element, or nothing is symbolic and it has the first value |
| `ArraySelects.MixedLost` | lib/Expr/ArrayExprOptimizer.cpp:636-677 | with a 32-bit index, a symbolic element and 2^31 ones, index 1 yields the read of element 0 instead of one |
| `ArrayRewriter.CollectRuns` | lib/Expr/ArrayExprRewriter.cpp:89-121 | the conditions cover exactly the wanted slots |
| `ArrayRewriter.Rewrite` | lib/Expr/ArrayExprRewriter.cpp:30-142 | over all searches the clauses hold exactly if some index is a solution, or is none for a search made while the shared flag was set; the flag of the last deciding search inverts the whole |
| `ArrayRewriter.OnlyOne` | lib/Expr/ArrayExprRewriter.cpp:63-142 | a single search is rewritten correctly, whatever its solutions |
| `ArrayRewriter.SharedFlagExact` | lib/Expr/ArrayExprRewriter.cpp:34-142 | over different indices the result is the disjunction that is meant if and only if the flag ends up set and a single search has solutions, or it ends up cleared and no search was inverted, or one that was not is met by every value |
| `ArrayRewriter.SharedFlagFails` | lib/Expr/ArrayExprRewriter.cpp:34-142 | three pairs of searches that are rewritten wrongly: the second leaves the flag of the first set, clears it, or inherits it |
| `ArrayRewriter.SharedFlagHarmless` | lib/Expr/ArrayExprRewriter.cpp:68-71 | a second search without solutions does no harm |
| `ArrayRewriter.SharedIndexExact` | lib/Expr/ArrayExprRewriter.cpp:34-142 | for any searches, also several over one index, what the searches over each index decide determines whether the result is the disjunction that is meant, both ways |
| `CallPaths.HandOver` | lib/Core/CallPathManager.cpp:50-58 | handing a summary to the parent and to the entry of its key keeps the total of every key |
| `CallPaths.CallPathManager.ComputeCallPath` | lib/Core/CallPathManager.cpp:61-72 | returns the ancestor with the same call if there is one and creates a node otherwise; no key repeats on a path |
| `CallPaths.CallPathManager.GetCallPath` | lib/Core/CallPathManager.cpp:74-89 | asking twice gives the same node, which carries the key and is an ancestor or a child of the given one |
| `CallPaths.CallPathManager.GetSummaryStatistics` | lib/Core/CallPathManager.cpp:44-59 | every entry is the sum over the nodes with its key on their path, each counted once |

## Left out

- Destruction of locks and condition variables, catch-up replay, cutoffs and limits on context
  switches: they add cases without a deeper property.
- `conflicting_extensions_deadlock`, `cex_wait1`, the lost notifications and the broadcasts that
  `cex_notification` proposes, and the combination of concurrent events they use.
- PorSignals.ProposeSignals: does not model the early return for events beyond a cutoff, because cutoffs
  are not part of the model.
- Locks that atomic memory accesses take without blocking first, and the atomic flag of releases and
  exits.
- PorConflicts.CexAcquire: does not model the early return for events beyond a cutoff, because cutoffs
  are not part of the model.
- Waiting for a thread to exit as a blocked state: the handler of joins registers the event at once.
- AddressSpaces.RunRefines: does not model the wrap-around of the 32-bit epoch counter after 2^32
  forks of one space.
- Copying memory to and from the outside, read-only objects, fingerprints and statistics.
- ArraySelects.BuildConstantSelect: requires at most 2^w elements for an index of w bits, so that every
  element has an index; indices wider than 32 bits are cut to 32 bits before.
- ArraySelects.BuildMixedSelect: works on element numbers; the division of the byte index by the element
  size and the multiplication of hole numbers are not part of the model.
- ConstraintRebuild.Rebuild: does not model the rules for division and remainder beyond folding
  constants, because at width one they presume that the divisor is one, nor `ConstArrayOpt`, which is
  off unless asked for; the results about visitors and constraints hold for them as for any rules that
  keep the meaning and have a measure.
- Boolean accesses of object contents, which the code treats as one byte, and the solver call that
  makes symbolic bytes concrete for external calls.
- AllocLargeHeap.LargeObjectHeap.Allocate: requires addresses below 2^62.
- AllocSizedHeap.SizedHeap.Allocate: requires the lowest free slot to have a red zone, as the code asserts.
- AllocSizedHeap.SizedHeap.MayDeallocate: requires a pointer above the base of the bin, because for the
  base itself the code counts the trailing zeroes of zero, which is undefined.
- PorProtocol: an exiting thread releases the lock it is given without a test that it holds it. The model
  releases a lock only for its owner, which is how the runtime calls it; what a release by another
  thread does to the lock is not modelled.
- Searchers, the solver chain, instruction dispatch, LLVM types, floating point and file formats.
