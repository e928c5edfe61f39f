# sylar: models and proofs of its concurrent and wire-format core

This project models the parts of the sylar server framework in which a mistake is hardest to see, and proves what they
are relied on for. `dafny verify dfyconfig.toml` checks all of it.

**Fibers, scheduler and event registry.** `EventRegistry` describes each critical section of `IOManager` as a function
on the descriptor objects ever made, the table that finds them, epoll's own table, and the pending counter. `IoManager`
has the same operations as methods of a class that update descriptor objects in place, proved against those functions.
`FiberMachine` puts any number of workers, fibers, the task queue and the registry into one step machine: a step is one
critical section, or the switch out of a task together with the fix-ups behind it; holding is two steps, as others see
the stored state before the switch. The environment supplies epoll reports, kernel refusals, resizes of the table and
the clock. `FiberInvariant` shows that every step keeps one invariant, `FiberTheorems` what follows for whole runs, and
`HoldWindow` has the run in which a fiber is entered while it is being left. `Scheduler` has the fiber, the queue and a
worker's run loop as classes whose methods take objects that show one state of the machine to objects that show the
state after its step. `DoIo` is one call of a hooked I/O function interleaved with the callbacks of its condition
timers, which test the shared flag, set it and cancel the event in three steps.

**Timers.** `TimerModel` gives each critical section of `TimerManager` in 64-bit arithmetic and proves properties of all
runs; `TimerManager` has the sorted set, the flags and the loops as they are updated in place.

**Byte array.** `ByteArray` is the linked list of nodes with its cursor, refining one flat memory with a position and a
size. `SocketStream` uses its buffers without copying. `Codec`, `Messages` and `TypedArray` are the typed values: fixed
width in either byte order, varints, zigzag and strings, up to the round trip of whole messages.

**HTTP.** `HttpMachine` holds the request printer and the generated table's states that printed requests reach,
`HttpRoundTrip` proves that parsing a printed request tells the callbacks what was printed and how any run ends, and
`HttpParser` has the printing loop and the parser's fields.

**Two smaller printers.** `Ipv6` compresses and expands zero groups, `LogPattern` splits a log pattern into tokens.
`Sums`, `Numerals` and `Wrappers` hold counting, decimal printing and the optional value.

## What the code does that its documentation does not say

- `refresh` and `reset` clear the callback and never restore it (`sylar/timer.cc:77`, `sylar/timer.cc:103`); the model
  does the same, and `TimerModel.RefreshDisarms` says so.
- `addCapacity` rounds up only when the remainder exceeds the old free space (`sylar/bytearray.cc:714`), so a write can
  run off the last node. `ByteArray.CapacityExactly` says when, `ByteArray.Write` that nothing else goes wrong. In a new
  array that is every first write longer than one node that does not fill whole nodes (`ByteArray.FirstWriteFits`), 4097
  bytes with the default node size (`ByteArray.FirstWriteRunsOff`).
- Reading zero bytes at the end of the capacity goes through a null cursor (`sylar/bytearray.cc:546-547`); hence the
  second condition of the message round trip.
- The byte order is chosen by comparing two macros that are equal when neither is defined (`sylar/endian.h:45`), so the
  processor's order and the compiled-in order are separate parameters.
- A report is masked only in the error case (`sylar/iomanager.cc:492`, `sylar/iomanager.cc:531-540`), so a report that
  comes after a cancel can abort; `FiberTheorems.LateReportAborts` is such a run, and the protocol theorems ask that
  delivered events are armed when the descriptor is locked.
- Two threads that find the descriptor table too small can shrink it (`sylar/iomanager.cc:148`). The table holds pointers
  (`sylar/iomanager.h:86`), so the object cut off stays, and epoll still reports it by its pointer, which wakes the waiter;
  but deleting and cancelling by descriptor find nothing, and arming the descriptor again is refused
  (`EventRegistry.ShrinkRace`). The protocol theorems hold with such resizes at any time.
- `YieldToHold` stores HOLD before it switches out (`sylar/fiber.cc:245-246`), and the queue's scan goes by that state
  (`sylar/scheduler.cc:246`). A fiber whose event was already reported can be entered by a second worker while the first is
  on its stack; `HoldWindow.EnteredWhileLeft` is such a run, and `FiberTheorems.NobodyRunsTwice` says that nothing else
  puts two workers on one stack. What happens on the stack then is undefined, so the other theorems are about runs
  without it.
- A fiber that yields READY is taken off the active count before it is queued (`sylar/scheduler.cc:277-282`), so
  `stopping()` is stable only when nobody yields; `FiberTheorems.StoppingBeforePushBack` is a run in which it is not.
- The callbacks of `do_io` test and set the shared flag without a lock (`sylar/hook.cc:160-164`). A callback still pending
  when the call tries again can end the next round's wait with a timeout, and two callbacks can act;
  `DoIo.StaleExactly` says when, and `DoIo.TwoCallbacksAct` has both runs.
- `listExpiredCb` sees a timer under one lock and takes `begin()` under another (`sylar/timer.cc:193-204`), so the set can
  be empty by then; `TimerModel.AstrayExactly` says when, and `TimerModel.ExpiryGoesAstray` that it can be.
- `addTimer` and `listExpiredCb` read the clock before they lock (`sylar/timer.cc:142-143`, `sylar/timer.cc:191`). An old
  reading harms the sleeping thread only if it looks like a rollover (`TimerModel.FrontKept`,
  `TimerModel.StaleExpiryExactly`), and then it can: `TimerModel.StaleExpiryMissed`.
- Header names may hold line ends and values may hold control characters other than NUL and DEL, because a range in
  the grammar is read as a difference (`sylar/http/http11_parser.rl:226`); the model takes the table as it is.
- The comment lists "%%" as an escape (`sylar/log.cc:589`); `LogPattern.DoubledPercent` shows what it yields.

## Model

| member | source | states |
|---|---|---|
| `EventRegistry.TriggerMaskKeeps` | sylar/iomanager.cc:36-56 | triggering armed events never meets the assertion, hands over exactly the waiter, fiber or callback, of each event's own context, READ before WRITE, and empties just those contexts |
| `EventRegistry.TriggerMaskMoves` | sylar/iomanager.cc:36-56 | every task leaves the two contexts of a descriptor exactly as often as it is handed to the scheduler |
| `EventRegistry.FireKeeps` | sylar/iomanager.cc:507-541 | reducing the kernel mask and triggering: counter, contexts and kernel mask agree again, the waiters of the fired events are what is handed over, and no task, fiber or callback, is lost or doubled |
| `EventRegistry.AddKeeps` | sylar/iomanager.cc:131-208 | for a free event the asserts at 190-192 hold; arming succeeds exactly when the kernel accepts and no other object is registered for the descriptor, parks exactly the given task in that event's context, and otherwise changes nothing |
| `EventRegistry.ArmIsLegal` | sylar/iomanager.cc:166-172 | the choice between ADD and MOD is one the kernel can accept exactly when no other object is registered for the descriptor |
| `EventRegistry.DelKeeps` | sylar/iomanager.cc:210-260 | deleting succeeds exactly for an armed event the kernel lets go, keeps the agreement, wakes nobody, and forgets exactly the task waiting for that event |
| `EventRegistry.CancelKeeps` | sylar/iomanager.cc:263-312 | cancelling succeeds exactly for an armed event, wakes that event's own waiter and empties its context only; otherwise nothing changes |
| `EventRegistry.ArmedAndUndone` | sylar/iomanager.cc:131-312 | arming and then cancelling gives the very registry back and wakes the task that was armed; arming and then deleting gives it back and wakes nobody |
| `EventRegistry.OperationsAssertExactly` | sylar/iomanager.cc:36-373 | in any state of the table: arming meets its asserts exactly for an armed event, or for a busy context once the kernel has accepted; triggering meets its assert exactly for an unarmed event; deleting and cancelling never meet one |
| `EventRegistry.CancelAllKeeps` | sylar/iomanager.cc:314-375 | the waiters of all armed events are handed over, READ first, none stays armed and the assertion at 373 holds; it succeeds exactly if something was armed and the kernel accepts |
| `EventRegistry.DeliverExactly` | sylar/iomanager.cc:485-541 | triggering `real_events` unmasked meets the assertion exactly when the report names an unarmed event beside an armed one; every other report keeps the agreement and hands over exactly the waiters of the armed events it stands for, or changes nothing |
| `EventRegistry.ResizeKeeps` | sylar/iomanager.cc:116-128 | a resize to any size from the initial one on keeps counter, contexts and kernel in agreement, loses no object and no waiter, and does not touch the kernel |
| `EventRegistry.GrowReaches` | sylar/iomanager.cc:143-150 | growing to fd * 1.5, rounded down, reaches the descriptor, gives every new descriptor a new object and leaves the entries before it |
| `EventRegistry.ShrinkExactly` | sylar/iomanager.cc:116-128 | after a resize to fewer entries every armed object is still found by its descriptor exactly when no dropped descriptor was armed |
| `EventRegistry.LookupsMiss` | sylar/iomanager.cc:210-375 | an armed object that is not looked up any more: delete and cancel through its descriptor find nothing armed and change nothing, and arming is refused by the kernel |
| `EventRegistry.ReportsFind` | sylar/iomanager.cc:485-541 | a report goes by the pointer epoll holds and wakes exactly the waiter of that event of an armed object, looked up or not |
| `EventRegistry.ShrinkRace` | sylar/iomanager.cc:134-150 | it happens from a new table, for any two such descriptors: the second of two threads that saw the small table cuts the first one's armed descriptor off; its fiber stays parked and counted, a report wakes it, and after growing again the descriptor cannot be armed |
| `IoManager.Descriptor.Trigger` | sylar/iomanager.cc:36-56 | the woken task is the waiter of the event's own context, which alone is emptied; the fields are those of the specification |
| `IoManager.IOManager.Fire` | sylar/iomanager.cc:356-365 | READ then WRITE are triggered and the counter goes down for each, as specified |
| `IoManager.IOManager.EpollCtl` | sylar/iomanager.cc:166-172 | epoll's table changes exactly on an accepted request that is legal for what it holds |
| `IoManager.IOManager.Lookup` | sylar/iomanager.cc:133-150 | the object the table has for the descriptor, after the growth the specification gives if it was too small |
| `IoManager.IOManager.AddContext` | sylar/iomanager.cc:120-127 | one fresh object with the next descriptor at the end of the table |
| `IoManager.IOManager.ContextResize` | sylar/iomanager.cc:116-128 | keeps the existing descriptor objects, makes the missing ones, drops pointers without deleting, and is the specification's resize |
| `IoManager.IOManager.AddEvent` | sylar/iomanager.cc:131-208 | the fields end as the specification of the critical section says, with the same answer |
| `IoManager.IOManager.DelEvent` | sylar/iomanager.cc:210-260 | the fields end as the specification says |
| `IoManager.IOManager.CancelEvent` | sylar/iomanager.cc:263-312 | the fields end as the specification says, with the same woken task |
| `IoManager.IOManager.CancelAll` | sylar/iomanager.cc:314-375 | the fields end as the specification says, with the woken tasks in order |
| `IoManager.IOManager.DeliverEvent` | sylar/iomanager.cc:485-541 | one reported descriptor: fields, counter and woken tasks as specified |
| `IoManager.IOManager.DeliverEvents` | sylar/iomanager.cc:471-541 | the delivery loop is the fold of single deliveries, in order, stopping at a failed assertion |
| `IoManager.DeliverAllKeeps` | sylar/iomanager.cc:471-541 | a whole batch of reports that do not overreport keeps the registry consistent, and every task leaves it as often as it is woken |
| `IoManager.DeliverAllInOrder` | sylar/iomanager.cc:471-541 | each report of a batch is delivered to the registry its predecessors left, its tasks are woken behind theirs, and a failed assertion ends the batch |
| `FiberInvariant.StepKeeps` | sylar/scheduler.cc:222-359 | every step that clients may cause keeps the invariant: wake-ups, activity counter, tasks, fiber states and the event registry; entering a fiber that a worker is still leaving is not such a step |
| `FiberTheorems.RunKeeps` | sylar/scheduler.cc:222-359 | the invariant holds after every run of allowed steps, for any number of workers, any interleaving and any resizes of the descriptor table |
| `FiberTheorems.WakeUpsAreConserved` | sylar/hook.cc:140-210 | no lost or doubled wake-up: a waiting fiber has exactly one of an armed context, a queue entry, a worker carrying it or an owed timer; others have none armed; registrations and resumptions match |
| `FiberTheorems.CountersAreExact` | sylar/scheduler.cc:254-288 | after every such run the active count is the number of workers holding a task not yet decremented, and the pending count is the number of armed events |
| `FiberTheorems.NobodyRunsTwice` | sylar/scheduler.cc:244-288 | over every run in which clients do as they should, no two workers are ever on one fiber's stack exactly when no fiber is entered while a worker is still leaving it, between the store of HOLD and the end of the switch |
| `FiberTheorems.TakeCollidesExactly` | sylar/scheduler.cc:244-277 | taking a fiber can be followed at once by two workers on its stack exactly if a worker is still leaving it |
| `HoldWindow.EnteredWhileLeft` | sylar/fiber.cc:242-247 | that happens: from the start, for any event and callback, it is armed, reported, HOLD is stored, worker 1 takes the fiber and enters it while worker 0 is on its stack; worker 0 then marks the running fiber HOLD |
| `FiberTheorems.TasksAreAccounted` | sylar/scheduler.cc:230-264 | every scheduled task is queued, held by one worker, or was started; when stopping is reported all were started |
| `FiberTheorems.CallbackFiberAtLoopHead` | sylar/scheduler.cc:292-332 | at every loop head the kept callback fiber is INIT without a callback and unknown to everybody else, so `reset` is legal |
| `FiberTheorems.AssertionsFireExactly` | sylar/fiber.cc:134-188 | after a run of allowed steps, the next step, allowed or not, meets a library assertion exactly when it arms an armed event or is an accepted report that overreports; `reset` and `swapIn` do not assert then |
| `FiberTheorems.StartAssertsExactly` | sylar/scheduler.cc:272-307 | in any state at all, starting a task meets the assertion of `swapIn` exactly for a running fiber and that of `reset` exactly for a kept fiber that has not ended |
| `FiberTheorems.StartEntersExactly` | sylar/scheduler.cc:272-307 | otherwise starting enters the held fiber with its own callback, or drops it if it ended, and runs a held callback in the kept fiber or the new one, which is then kept; the fiber entered waits no more and nothing else changes |
| `FiberTheorems.ExitsExactly` | sylar/scheduler.cc:277-331 | leaving by hold, yield, return and exception: state and callback left in the fiber, the callback fiber being reset to INIT by the last two, where the worker then stands and what is counted; nothing else changes |
| `FiberTheorems.HoldDoneExactly` | sylar/scheduler.cc:277-331 | the loop behind a held switch goes by the state it finds: READY is queued for any thread, an ended callback fiber is reset, all else is marked HOLD, and a callback fiber that did not end is given up |
| `FiberTheorems.HeldTwiceAsserts` | sylar/scheduler.cc:272-277 | two workers that hold the same live fiber: the second to start it asserts |
| `FiberTheorems.ScheduledTwiceAborts` | sylar/fiber.cc:173-178 | scheduling a fiber twice before it ran does that: from the start, two workers take both entries and the second `swapIn` asserts |
| `FiberTheorems.LateReportAborts` | sylar/iomanager.cc:531-540 | the hang-up case does happen: from the start, two armed events, one cancelled, a late report aborts |
| `FiberTheorems.DeletingAnArmedFiberStrandsIt` | sylar/iomanager.cc:210-260 | deleting the event of a parked fiber leaves it with no wake-up at all, which is why the protocol excludes it |
| `FiberTheorems.TakeTakesTheFirst` | sylar/scheduler.cc:230-264 | the scan passes over exactly the entries pinned to another thread and those naming a fiber in EXEC; a worker leaves without a task exactly if that is all, and else has the first other entry, all others staying in order |
| `FiberTheorems.OwnEntriesAreFound` | sylar/scheduler.cc:230-264 | so a callback or a fiber not in EXEC that is queued for anybody or for this very thread keeps the worker from leaving without a task |
| `FiberTheorems.QueueGrowsAtTheEnd` | sylar/scheduler.h:77-89 | no other step takes anything from the queue or puts anything in front: what was queued stays, in order |
| `FiberTheorems.EnqueueAllAppends` | sylar/scheduler.h:77-89 | woken tasks are queued at the end, in order and for any thread |
| `FiberTheorems.RequeuedFiberIsFound` | sylar/scheduler.cc:244-251 | the entry of a fiber woken early stays in the queue while the fiber is in EXEC, and keeps every worker that looks from leaving without a task once it is not |
| `FiberTheorems.PinnedEntriesStay` | sylar/scheduler.cc:234-242 | an entry pinned to a thread leaves the queue only by that thread's take |
| `FiberTheorems.QuietStep` | sylar/scheduler.cc:362-378 | while nothing outside schedules and nobody yields READY, `stopping()` once true stays true |
| `FiberTheorems.ShutdownIsStable` | sylar/scheduler.cc:334-387 | over whole quiet runs: stopping is stable, and a worker that left saw an empty queue and a zero count |
| `FiberTheorems.NobodyLeavesBeforeStop` | sylar/scheduler.cc:341-346 | no worker leaves `run` before `stop` set its flags |
| `FiberTheorems.StopLeavesNothing` | sylar/scheduler.cc:106-193 | from the start through any run and a quiet shutdown: workers that left leave nothing queued and nothing active |
| `FiberTheorems.StoppingIsStableExactly` | sylar/scheduler.cc:277-283 | a READY yield is decremented before it is queued: stability can be broken exactly by such a worker |
| `FiberTheorems.StoppingBeforePushBack` | sylar/scheduler.cc:277-283 | and it is: from the start, a callback yields READY, `stop` is called, `stopping()` is true, and the push makes it false again |
| `Scheduler.RunLoop.Take` | sylar/scheduler.cc:227-270 | the critical section at the loop's head takes objects that show a state to objects that show the state after the machine's take; the tickle flag tells of a skipped entry of another thread |
| `Scheduler.RunLoop.StartFiber` | sylar/scheduler.cc:272-276 | entering a held fiber is the machine's start, and fails exactly where the machine records a fault |
| `Scheduler.RunLoop.StartCall` | sylar/scheduler.cc:292-307 | so is resetting the kept fiber or making a new one for a callback and entering it |
| `Scheduler.RunLoop.SwitchOut` | sylar/scheduler.cc:277-331 | yielding, finishing or throwing and the loop's fix-ups behind it are the machine's steps YieldReady with PushBack, Finish and Throw |
| `Scheduler.RunLoop.StoreHold` | sylar/fiber.cc:242-246 | storing HOLD is the machine's first step of holding |
| `Scheduler.RunLoop.HoldDone` | sylar/scheduler.cc:277-331 | the fix-ups behind that switch are its second, whatever state the fiber is found in |
| `Scheduler.RunLoop.Settle` | sylar/scheduler.cc:277-331 | the fix-ups alone, for every state: counter, requeue, reset or HOLD, and which callback fiber is kept |
| `Scheduler.TaskQueue.Scan` | sylar/scheduler.cc:230-264 | the loop over the list erases and counts active the first entry that is neither pinned to another thread nor names a fiber in EXEC, and nothing if there is none |
| `Scheduler.TaskQueue.ScheduleNoLock` | sylar/scheduler.h:77-89 | appends the task unless it is empty, as the machine's push does, and reports whether the queue was empty |
| `Scheduler.TaskQueue.ScheduleAll` | sylar/scheduler.h:49-65 | a batch is the machine's pushes in order, and asks for a tickle if the queue was empty |
| `Scheduler.TaskQueue.IsStopping` | sylar/scheduler.cc:367-378 | on objects that show a state, `stopping()` is the condition that the shutdown theorems are about |
| `DoIo.StepKeeps` | sylar/hook.cc:140-210 | every interleaved step of the call and its timer callbacks keeps the call's account |
| `DoIo.CallEnds` | sylar/hook.cc:140-210 | a call that returned leaves no timer in the set and no event armed; it gives the final answer, or a timeout if a callback of one of its own timers acted |
| `DoIo.AnswersAreTold` | sylar/hook.cc:140-213 | over any run from the call's beginning, the answers of the function so far tell the phase, whether an event was refused and how many timers were made: all but the last asked to try again, and a final one is what the call returns |
| `DoIo.TryExactly` | sylar/hook.cc:142-160 | over such runs, an answer ends the call with it exactly if it is final; EINTR leaves it trying with no timer made, and EAGAIN sends it to arm, with one new timer exactly if there is a timeout |
| `DoIo.ArmExactly` | sylar/hook.cc:167-203 | after the arming the call waits with its timers untouched, or, if refused, returns -1 with no timer left in the set |
| `DoIo.WaitsAndSucceeds` | sylar/hook.cc:139-213 | a run that waits once and returns the second answer, for every answer and with or without a timeout |
| `DoIo.TestExactly` | sylar/hook.cc:155-166 | a callback goes on past its test exactly if the call has not returned and no callback has set the flag |
| `DoIo.CallbacksRunOnce` | sylar/hook.cc:155-170 | over any run every timer expires at most once and its callback tests, sets and ends at most once |
| `DoIo.LateCallback` | sylar/hook.cc:155-170 | after the return, over any run, a callback can still act exactly if it had passed its test before |
| `DoIo.AfterReturn` | sylar/hook.cc:155-203 | and the answer stays as it is |
| `DoIo.PromptCallsActOnce` | sylar/hook.cc:155-203 | if no callback is pending whenever the call tries again, at most one callback of the call acts, and it is that of the round in which the call waits |
| `DoIo.StaleExactly` | sylar/hook.cc:139-203 | where the call tries again, its next wait can end in a timeout that is not its own, and two callbacks can act in it, exactly when a callback of an earlier round is pending |
| `DoIo.RetryWithPending` | sylar/hook.cc:139-203 | such a retry is reached: the event comes after the timer expired and before its callback ran |
| `DoIo.TwoCallbacksAct` | sylar/hook.cc:160-166 | from the first call on, a run in which two callbacks pass the test before either sets the flag, and one in which the first round's timer ends the second wait |
| `TimerModel.RollsOverExactly` | sylar/timer.cc:259-270 | in 64-bit arithmetic the rule asks for a step back by more than an hour, or by anything while the last reading is within the first hour |
| `TimerModel.FindableKept` | sylar/timer.cc:57-127 | every operation keeps: a timer with a callback is in the set, so cancel finds a real element |
| `TimerModel.OnceKept` | sylar/timer.cc:57-70 | each step keeps the account of deliveries and successful cancels of a timer |
| `TimerModel.DisarmedStays` | sylar/timer.cc:57-127 | a timer without a callback delivers nothing and is not cancelled any more |
| `TimerModel.RefreshDisarms` | sylar/timer.cc:72-127 | refresh, and reset to something new, keep the timer in the set but drop its callback |
| `TimerModel.RefreshSilences` | sylar/timer.cc:72-127 | over any run, that timer never delivers again and no later cancel finds it |
| `TimerModel.SilentOverRuns` | sylar/timer.cc:57-237 | over any run, a timer without a callback delivers nothing and is not cancelled |
| `TimerModel.ResetInSteps` | sylar/timer.cc:93-127 | reset is: cancel, change the keys outside the set, insert again |
| `TimerModel.AddNotifiesExactly` | sylar/timer.cc:139-148 | `addTimer` notifies and raises the flag exactly if the flag was down and the new deadline, then address, is below those of all other timers in the set; the timer is in it with deadline start + ms, and nothing else changes |
| `TimerModel.ResetNotifiesExactly` | sylar/timer.cc:93-127 | so does an effective `reset`, which sets the deadline to the old start or to now plus the new period; any other reset changes nothing |
| `TimerModel.InsertNotifiesExactly` | sylar/timer.cc:239-256 | every insertion notifies under just that condition |
| `TimerModel.ResetFindable` | sylar/timer.cc:93-127 | reset keeps armed timers findable |
| `TimerModel.NothingDue` | sylar/timer.cc:204-207 | the early return of expiry is expiry with nothing due |
| `TimerModel.ExpireIs` | sylar/timer.cc:218-236 | cutting the due timers out and firing each is expiry: recurring ones again at now + ms, one-shots removed and disarmed, all others untouched |
| `TimerModel.ExpireExactly` | sylar/timer.cc:189-236 | what expiry leaves of each timer: due and recurring ones are in the set again at now + ms, due one-shots are out and disarmed, all others are as before |
| `TimerModel.CancelExactly` | sylar/timer.cc:57-70 | cancel takes exactly the given armed timer out of the set and disarms it, or changes nothing |
| `TimerModel.RefreshInSteps` | sylar/timer.cc:72-91 | refresh is: cancel, change the deadline outside the set, put it back |
| `TimerModel.RefreshIs` | sylar/timer.cc:72-91 | refresh moves the deadline of an armed timer in the set to now plus its period and drops its callback; it notifies nobody and changes nothing else |
| `TimerModel.FrontKept` | sylar/timer.cc:139-256 | every operation keeps the watch of the reported deadline, the clock of an addition or an expiry being read before the lock |
| `TimerModel.RecentReading` | sylar/timer.cc:259-270 | a reading within an hour of the last is not taken for a rollover once the clock is past its first hour |
| `TimerModel.StaleExpiryExactly` | sylar/timer.cc:189-236 | an expiry whose reading looks like a rollover keeps the watch exactly when no recurring timer is set again before the reported deadline |
| `TimerModel.StaleExpiryMissed` | sylar/timer.cc:189-236 | it need not: a run from a new manager, for any clock, interval and delay of more than an hour, in which the watch holds until a thread goes on with its old reading, and then a timer is due before the reported deadline with no notification |
| `TimerModel.TimersOverRuns` | sylar/timer.cc:57-256 | over any run: findable, cancelled at most once, a one-shot delivered or cancelled at most once |
| `TimerModel.EmptiedExactly` | sylar/timer.cc:57-237 | which steps take the last timer out of the set: a cancel of the only timer, or an expiry of nothing but due one-shots |
| `TimerModel.EmptyExactly` | sylar/timer.cc:191-204 | over any run, the set is empty at an expiry's second lock exactly if such a step came after its first and no timer was added since |
| `TimerModel.AstrayExactly` | sylar/timer.cc:191-204 | so `begin()` is taken of an empty set exactly when that is so and the reading does not look like a rollover |
| `TimerModel.UndisturbedStaysOn` | sylar/timer.cc:191-204 | in particular never if nobody cancels and no other expiry goes on between the two locks |
| `TimerModel.ExpiryGoesAstray` | sylar/timer.cc:193-204 | otherwise it can be: two threads see the only timer, the first expires it, and the second looks at the front of the empty set |
| `TimerModel.NothingAfterCancel` | sylar/timer.cc:57-70 | after a successful cancel no later step delivers or cancels that timer |
| `TimerModel.FrontInsertionNeverMissed` | sylar/timer.cc:139-256 | with a forward clock, readings that do not look like a rollover and no overflow, nothing is due before the reported deadline, or the tickled flag is set and the notification was made since |
| `TimerManager.Manager.LowerBound` | sylar/timer.cc:209-211 | the position before which all timers order below the given key |
| `TimerManager.Manager.InsertSorted` | sylar/timer.cc:242-242 | the timer stands at its place, the others in order, the set sorted |
| `TimerManager.Manager.Erase` | sylar/timer.cc:63-64 | exactly the given timer is taken out, if it is there |
| `TimerManager.Manager.Enter` | sylar/timer.cc:239-256 | insertion with the front test and the tickled flag is the specification's; it notifies exactly if the flag was down and the key is below those of all other timers in the set |
| `TimerManager.Manager.AddTimer` | sylar/timer.cc:139-148 | the set and flags end as specified, the set sorted; the notification is made exactly if the flag was down and the new key is below those of all other timers |
| `TimerManager.Manager.Cancel` | sylar/timer.cc:57-70 | true exactly for an armed timer, whose element is then really erased |
| `TimerManager.Manager.Refresh` | sylar/timer.cc:72-91 | as specified, with the key changed only outside the sorted set |
| `TimerManager.Manager.Reset` | sylar/timer.cc:93-127 | as specified, including the early return, the wrap of m_next - m_ms and the notification of exactly an untickled front |
| `TimerManager.Manager.GetNextTimer` | sylar/timer.cc:168-187 | clears the flag and returns the front deadline's distance, zero when due, all ones when empty |
| `TimerManager.Manager.DetectRollover` | sylar/timer.cc:259-270 | tells whether the clock stepped back by more than an hour, or at all from a reading within its first hour; the reading is remembered and no timer is touched |
| `TimerManager.Manager.PartitionPoint` | sylar/timer.cc:209-215 | lower_bound and the skip loop end exactly between due and not due, whatever address the probe timer has |
| `TimerManager.Manager.FireAll` | sylar/timer.cc:224-236 | the loop collects each callback and re-inserts or disarms each timer |
| `TimerManager.Manager.ExpireFirst` | sylar/timer.cc:218-236 | cutting the first timers out and firing them is expiry |
| `TimerManager.Manager.ExpireSection` | sylar/timer.cc:201-236 | the second critical section, with a timer in the set, is expiry and returns the callbacks of precisely the due timers, in set order; all of them on rollover |
| `TimerManager.Manager.ListExpiredCb` | sylar/timer.cc:189-237 | with nobody between the locks: nothing without a timer, else that |
| `ByteArray.CapacityExactly` | sylar/bytearray.cc:699-714 | after addCapacity enough bytes are free exactly when the request fitted, the remainder is zero or the remainder exceeds the old free space |
| `ByteArray.LeastNodes` | sylar/bytearray.cc:714-714 | when it suffices, no smaller number of nodes would |
| `ByteArray.FitsBesideAFreeNode` | sylar/bytearray.cc:699-714 | while a whole node is free a larger request is met only without a remainder; with nothing free every request is met |
| `ByteArray.FirstWriteFits` | sylar/bytearray.cc:699-714 | the first write into a new array runs off the list exactly when it is longer than a node and does not fill whole nodes |
| `ByteArray.FirstWriteRunsOff` | sylar/bytearray.h:34-34 | with the default node size, 4097 bytes are enough |
| `ByteArray.ByteArray.constructor` | sylar/bytearray.cc:39-50 | one node, everything at zero, a valid array |
| `ByteArray.ByteArray.Offsets` | sylar/bytearray.cc:494-499 | the cursor is node number position / base, null exactly at the end of the capacity; capacity is base times the number of nodes |
| `ByteArray.ByteArray.AppendNodes` | sylar/bytearray.cc:716-734 | the loop links that many fresh nodes at the end; old bytes stay |
| `ByteArray.ByteArray.Append` | sylar/bytearray.cc:725-733 | one node linked behind the last: the list, the flat memory and the capacity grow by it |
| `ByteArray.ByteArray.LastNode` | sylar/bytearray.cc:716-721 | the walk ends at the last node |
| `ByteArray.ByteArray.Grow` | sylar/bytearray.cc:716-740 | a cursor at the end of the capacity moves to the first new node |
| `ByteArray.ByteArray.AddCapacity` | sylar/bytearray.cc:699-740 | capacity grows by exactly the computed nodes, a cursor at the end moves to the first new one, everything else stays |
| `ByteArray.ByteArray.Write` | sylar/bytearray.cc:487-537 | the chunk loop is a flat overwrite with position and size moved; it runs off the last node exactly when the request does not fit |
| `ByteArray.ByteArray.WriteLoop` | sylar/bytearray.cc:502-531 | the loop writes everything exactly when it fits the capacity |
| `ByteArray.ByteArray.PutChunk` | sylar/bytearray.cc:504-530 | one memcpy overwrites that part of the flat memory and leaves the cursor right |
| `ByteArray.ByteArray.Read` | sylar/bytearray.cc:539-574 | the flat slice; too few bytes throw and change nothing; reading zero bytes at the end of the capacity dereferences null, and nothing else does |
| `ByteArray.ByteArray.PeekAt` | sylar/bytearray.cc:577-613 | the const read starts in the cursor's node: which bytes it returns, when it leaves the list, and that these are the asked ones if the position lies in that node |
| `ByteArray.ByteArray.SetPosition` | sylar/bytearray.cc:616-642 | any position up to the capacity, beyond it an exception; the size follows and the walk finds the node |
| `ByteArray.ByteArray.Seek` | sylar/bytearray.cc:633-641 | the walk ends at the node of the position |
| `ByteArray.ByteArray.Clear` | sylar/bytearray.cc:472-485 | back to one node with its old bytes |
| `ByteArray.ByteArray.GetReadBuffers` | sylar/bytearray.cc:774-810 | stretches that are exactly the next min(len, readable) positions; gathered, they are the bytes read would return |
| `ByteArray.ByteArray.Collect` | sylar/bytearray.cc:786-808 | the loop of both buffer functions covers the asked positions, or runs off the list exactly when they do not fit |
| `ByteArray.ByteArray.GetWriteBuffers` | sylar/bytearray.cc:858-893 | stretches that are exactly the next len positions after making room; position, size and old bytes stay; fails exactly when the request does not fit |
| `ByteArray.ByteArray.GatherIs` | sylar/bytearray.cc:774-810 | what stretches covering positions hold is that part of the flat memory |
| `ByteArray.ByteArray.Scatter` | sylar/socket_stream.cc:44-45 | filling the stretches with the bytes that arrived is a flat overwrite |
| `ByteArray.PastedMore` | sylar/bytearray.cc:487-537 | two writes in a row leave what one write of both leaves |
| `SocketStream.Read` | sylar/socket_stream.cc:35-51 | zero-copy receive leaves the position, size and bytes that a copying write of the arrived bytes leaves |
| `SocketStream.Write` | sylar/socket_stream.cc:62-77 | zero-copy send sends the first bytes a copying read would return and moves the position behind them |
| `Codec.FixedRoundTrip` | sylar/bytearray.cc:95-159 | fixed-width integers come back for every processor order, compiled-in order and chosen order |
| `Codec.FixedReadBack` | sylar/bytearray.cc:297-352 | and any bytes are the encoding of the number they are read as |
| `Codec.LittleBytes` | sylar/endian.h:45-49 | byte k of a little-endian number is v / 256^k mod 256 |
| `Codec.WireOrder` | sylar/endian.h:45-49 | the bytes have the chosen order exactly as far as the compiled-in order is the processor's |
| `Codec.ZigzagInverse` | sylar/bytearray.cc:161-194 | zigzag is 2n or 2|n|-1 and decoding inverts it on every signed value, the smallest included |
| `Codec.UnzigzagInverse` | sylar/bytearray.cc:186-194 | and encoding inverts decoding on every unsigned value |
| `Codec.VarintLength` | sylar/bytearray.cc:209-222 | the encoding has as many bytes as the value has seven-bit groups |
| `Codec.VarintBytes` | sylar/bytearray.cc:209-222 | byte k holds the k-th seven-bit group, and its top bit is set on all but the last |
| `Codec.VarintLengths` | sylar/bytearray.cc:209-242 | one to five and one to ten bytes |
| `Codec.Shortest` | sylar/bytearray.cc:361-380 | any bytes that decode to a value are at least as many as its encoding |
| `Codec.PrefixFree` | sylar/bytearray.cc:209-242 | no encoding begins another |
| `Codec.VarintRoundTrip` | sylar/bytearray.cc:361-406 | the bounded decoder gives the value back and stops at the last byte, whatever follows |
| `Codec.VarintReadsExactly` | sylar/bytearray.cc:361-406 | reading any bytes as a varint: it takes them up to the first without the top bit, at most five or ten, puts their low bits together cut to the width, and fails exactly when they end before that |
| `Messages.PrefixBack` | sylar/bytearray.cc:262-287 | a length prefix decodes to the length cut to 16, 32 or 64 bits |
| `Messages.TextFormat` | sylar/bytearray.cc:262-288 | a string goes out as its length in 2, 4 or 8 bytes, cut to that many, or as a varint, and then its bytes |
| `Messages.NumberFormat` | sylar/bytearray.cc:82-260 | a fixed number goes out in 1, 2, 4 or 8 bytes as its two's complement, a compact one as a varint, zigzag if signed |
| `Messages.LegalExactly` | sylar/bytearray.cc:82-260 | the numbers each type admits, by their bounds |
| `Messages.FaithfulExactly` | sylar/bytearray.cc:262-288 | the length fits its prefix exactly below 2^16, 2^32 and 2^64 |
| `Messages.ValueBack` | sylar/bytearray.cc:297-469 | a value comes back exactly when its length fits its prefix, as `Messages.FaithfulExactly` counts; an empty string at the end of the capacity meets null |
| `Messages.MessageRoundTrip` | sylar/bytearray.cc:82-469 | a list of typed values decodes to itself exactly under those two conditions, and decoding ends at its last byte |
| `Messages.NumberReadsExactly` | sylar/bytearray.cc:297-352 | reading any bytes as a fixed number: it fails exactly with fewer than 1, 2, 4 or 8 bytes, and else gives the legal number they encode |
| `Messages.CompactReadsExactly` | sylar/bytearray.cc:353-406 | reading any bytes as a compact number: it fails exactly where the varint ends early, and else gives the legal number whose encoding is the shortest varint of the value read |
| `Messages.TextReadsExactly` | sylar/bytearray.cc:428-460 | reading any bytes as a string with a fixed prefix: which bytes it gives, where it throws, and that it meets null exactly when empty at the end of the capacity |
| `Messages.CompactTextReadsExactly` | sylar/bytearray.cc:462-469 | the same with a varint as prefix |
| `Messages.DecodeAllInOrder` | sylar/bytearray.cc:297-469 | reading one more type goes on behind what was read before, and nothing is read behind a failure |
| `TypedArray.MessageFits` | sylar/bytearray.cc:699-740 | room for the whole message suffices, and base size one always does |
| `TypedArray.WriteFixed` | sylar/bytearray.cc:95-159 | swaps as the orders ask and writes the encoding |
| `TypedArray.VarintBuffer` | sylar/bytearray.cc:209-242 | the loop fills its buffer with the encoding and never overruns it |
| `TypedArray.WriteVarint` | sylar/bytearray.cc:209-242 | writes the encoding |
| `TypedArray.WriteText` | sylar/bytearray.cc:262-288 | the length prefix in 2, 4 or 8 bytes or as a varint, and the bytes |
| `TypedArray.WriteAll` | sylar/bytearray.cc:82-294 | a message is written as its encoding; it fails exactly when one of its writes misses capacity |
| `TypedArray.ReadNat` | sylar/bytearray.cc:297-352 | the value of the bytes, or the exception |
| `TypedArray.ReadVarint` | sylar/bytearray.cc:361-406 | the loop with its shift and truncation is the bounded decoder |
| `TypedArray.ReadText` | sylar/bytearray.cc:428-469 | length, then bytes: value, exception or null as specified |
| `TypedArray.ReadAll` | sylar/bytearray.cc:297-469 | reading the types in turn is decoding what is readable |
| `TypedArray.RoundTrip` | sylar/bytearray.cc:82-469 | write a message, set the position back, read the same types: it comes back exactly when the lengths fit and no empty string ends the capacity, with the same end position |
| `HttpRoundTrip.RequestRoundTrip` | sylar/http/http11_parser.rl.cc:876-2408 | running the table on a printed request from state 1 emits exactly method, path, query, target, fragment, version, the connection field, the other headers in order and the content length, finishes, and puts the body start at the body |
| `HttpRoundTrip.FieldsTold` | sylar/http/http.cc:192-205 | the field events are the connection flag, then the shown headers, then the body length |
| `HttpRoundTrip.WireText` | sylar/http/http.cc:174-213 | the stream byte by byte: request line, connection line, the shown headers, then the length with the empty line and the body, or the empty line alone |
| `HttpRoundTrip.LinesAppend` | sylar/http/http.cc:200-200 | each header is a line of name, colon and value, behind those before it |
| `HttpRoundTrip.ShownExactly` | sylar/http/http.cc:194-200 | every header of the map is shown in order, but for those named connection in any case |
| `HttpRoundTrip.ConnectionNames` | sylar/http/http.cc:197-197 | the names passed over are the ten letters of "connection", each in either case |
| `HttpRoundTrip.StripExactly` | sylar/http/http11_parser.rl.cc:1375-1426 | the told value is the printed one without exactly its leading blanks |
| `Numerals.DecimalBack` | sylar/http/http.cc:204-204 | the printed body length stands for the body's length |
| `HttpRoundTrip.VerbsLegal` | sylar/http/http.cc:33-51 | of all method numbers the parser takes the names of all but M-SEARCH |
| `HttpRoundTrip.TableBytes` | sylar/http/http11_parser.rl.cc:876-1469 | which bytes the table takes in method names, paths, queries, escapes, header names and values, each class by its codes |
| `HttpRoundTrip.AssertionsHold` | sylar/http/http11_parser.rl.cc:10637-10649 | the assertions on return hold for every buffer whose bytes do not lead out of the modelled states |
| `HttpRoundTrip.StepLeaves` | sylar/http/http11_parser.rl.cc:876-2408 | a byte leads out of them exactly as the request's first byte, the target's first byte, or a second slash behind it, and to which state |
| `HttpRoundTrip.StepFails` | sylar/http/http11_parser.rl.cc:876-2408 | and to the error state exactly as a byte outside the alphabet of its state, for every modelled state |
| `HttpRoundTrip.RunEnds` | sylar/http/http11_parser.rl.cc:876-2408 | a run ends with the buffer, in the error state without taking the byte, behind the headers with the body start set, or leaves the model; the run is that up to its last byte, which leads out of the modelled states exactly if the run leaves |
| `HttpRoundTrip.VerbStage` | sylar/http/http11_parser.rl.cc:876-936 | one to twenty letters and digits and a space give the method event |
| `HttpRoundTrip.TargetStage` | sylar/http/http11_parser.rl.cc:936-2408 | path, query and fragment with legal escapes give their events in the order of the callbacks |
| `HttpRoundTrip.VersionStage` | sylar/http/http11_parser.rl.cc:1100-1241 | the version and its line end give the version event |
| `HttpRoundTrip.HeaderStage` | sylar/http/http11_parser.rl.cc:1242-1469 | a header line gives its name and its value without leading blanks |
| `HttpRoundTrip.HeadersStage` | sylar/http/http11_parser.rl.cc:1242-1469 | so does any number of them, in order |
| `HttpRoundTrip.EndStage` | sylar/http/http11_parser.rl.cc:1470-1625 | the empty line ends the headers and sets the body start |
| `HttpRoundTrip.LineFeedAlone` | sylar/http/http11_parser.rl.cc:1196-1625 | a line feed alone ends the version, a header value and the headers just as it does behind a carriage return |
| `HttpParser.Dump` | sylar/http/http.cc:174-213 | the stream is the request line, the header lines with the map's own connection header left out, and the body |
| `HttpParser.DumpHeaders` | sylar/http/http.cc:192-200 | the loop over the headers |
| `HttpParser.HttpParser.Execute` | sylar/http/http11_parser.rl.cc:150-175 | unless the bytes lead out of the modelled states, the loop over the buffer ends in the fields, events and count of the table's run, with the assertions on return met |
| `HttpParser.HttpParser.Advance` | sylar/http/http11_parser.rl.cc:876-2408 | one byte changes the fields as the table's step does |
| `HttpParser.SendAndParse` | sylar/http/http.cc:174-213 | a dumped request parsed by a fresh parser: all events, and the rest of the buffer is the body |
| `Ipv6.ExpandsBack` | sylar/address.cc:534-567 | expanding the printed text gives back the groups, for any number of them and wherever the zeros are (section 2.2 of RFC 2373) |
| `Ipv6.AtMostOneGap` | sylar/address.cc:534-567 | the printed text has at most one double colon |
| `Ipv6.GapExactly` | sylar/address.cc:534-567 | it has one exactly if some group is zero; the gap stands for the whole first run of zero groups, and no zero is printed before it |
| `Ipv6.Insert` | sylar/address.cc:534-567 | the loop prints that text between brackets, then the port |
| `Ipv6.HexBack` | sylar/address.cc:554-554 | hexadecimal without leading zeros is read back |
| `Ipv6.HexShortest` | sylar/address.cc:554-554 | it consists of lower-case digits and, but for zero, does not begin with 0 |
| `LogPattern.LosesNothing` | sylar/log.cc:587-682 | the tokens put together are the pattern exactly when no item has an unclosed brace or empty braces |
| `LogPattern.RejoinedTokens` | sylar/log.cc:587-682 | in general: each unclosed brace costs a percent sign, each pair of empty braces two characters |
| `LogPattern.PlainPatterns` | sylar/log.cc:587-682 | a pattern without "{}" in which a closing brace follows each opening one loses nothing |
| `LogPattern.TokensSeparate` | sylar/log.cc:587-682 | two pieces of the pattern's own text are never adjacent and none is empty; an error is reported exactly for an unclosed brace |
| `LogPattern.TextAdjoinsExactly` | sylar/log.cc:668-683 | counting the error text as the text it is: two pieces of text are adjacent exactly when a brace is never closed, and each error text is followed by text |
| `LogPattern.PercentRun` | sylar/log.cc:601-609 | of a run of percent signs anywhere all but the last are text, and the last begins an item |
| `LogPattern.DoubledPercent` | sylar/log.cc:601-609 | so "%%" is not an escape in any pattern: one sign is put out and the other begins an item or an error |
| `LogPattern.ItemExactly` | sylar/log.cc:611-658 | an item's name is the longest run of letters and closing braces behind the sign, its format is what stands between a brace right behind the name and the next closing one, and the text goes on behind that |
| `LogPattern.Init` | sylar/log.cc:587-682 | the loops terminate with exactly these tokens and the error flag |
| `LogPattern.Scan` | sylar/log.cc:611-658 | the inner loop finds the item's name, format and end, or that its brace is never closed |

## Left out

- Atomicity: yielding READY, finishing and throwing are one step each with the fix-ups behind the switch, as such a fiber
  has no wake-up coming by which another worker could enter it. The growth and the arming of `addEvent` are two steps.
- Object lifetimes: shared pointers, ucontext stacks and context switches are not modelled; a fiber is its state, its
  callback and its number. A weak pointer that no longer locks is a call that has returned.
- Form: the run loop and `do_io` are interleaved with other threads, so their control is a step machine over values; the
  stretches of the run loop and the queue, fiber, descriptor, timer, byte array and parser operations are class methods.
- Kernel wake-ups: `tickle`, the pipe and `epoll_wait` timeouts are left out; reports and the kernel's answers are inputs.
  Closing a descriptor, which takes it out of epoll's table, is not a step.
- IOManager shutdown: its three conditions are not read together, so stable shutdown is proved for the base scheduler.
- Liveness of I/O timeouts: a timer callback that runs before `addEvent` finds nothing armed; only safety is proved.
- do_io's guards: the early returns for a disabled hook, an unknown, closed or non-blocking descriptor only call through;
  `connect_with_timeout`, `sleep` and their relatives have the same waiting step and are not repeated.
- IoManager.IOManager.EpollCtl: epoll's own table is a map field from descriptors to the pointer and mask it was given.
- FiberTheorems.WakeUpsAreConserved: assumes one waiter for each event, no `delEvent` of a parked fiber, no outside
  scheduling of a fiber that has a wake-up coming, reports that name armed events only, and that no fiber is entered while
  it is being left; a fiber may schedule itself and then hold.
- Scheduler.TaskQueue.Scan: the list is a sequence field, and the swap of the pointer constructors is the removal of the
  task from its context.
- TimerManager.Manager.LowerBound: the ordered set is a sorted sequence searched by a scan; addresses are numbers.
- Scheduler.RunLoop.SwitchOut: how the task leaves is one of three exits, given as a parameter; holding is apart.
- DoIo.PromptCallsActOnce: without its condition two callbacks can act, as `DoIo.TwoCallbacksAct` shows.
- TimerModel.FrontInsertionNeverMissed: assumes a clock that does not run backwards, readings that do not look like a
  rollover, and sums below the wrap-around, as the wrapped cases misplace timers.
- TimerModel.TimersOverRuns: says nothing behind an expiry that took the front of an empty set, which is undefined.
- TimerManager.Manager.ListExpiredCb: a refreshed timer's null callback is returned as the code returns it; running the
  callbacks is not part of the model.
- ByteArray.ByteArray.Write: sizes are unbounded, so the wrap-around of `size_t` and failing allocations are left out;
  what a write that ran off the list leaves behind is undefined.
- ByteArray.ByteArray.PeekAt: for a position outside the cursor's node it states which bytes are copied, which are not
  those at that position.
- ByteArray files and hexadecimal text: `writeToFile`, `readFromFile`, `toString`, `toHexString` and the positional
  `getReadBuffers` are not modelled, nor the appending of buffers behind those already in the caller's vector.
- Codec.FixedRoundTrip: floats and doubles travel as their 32 or 64 bits; the conversion to bits is not modelled.
- TypedArray.ReadVarint: setting shifted bits is modelled as adding them, which is the same for groups that do not overlap.
- SocketStream.Read: the socket's answer is a parameter, its count is not cut to the width of `int`, and asking for no bytes
  passes an empty list of buffers.
- HttpRoundTrip.RequestRoundTrip: covers an empty path or one in origin form; scheme, authority, IPv6 literal, XML and JSON
  states are not modelled, and a step into them leaves the model. Resuming a parse in a second buffer is left out.
- HttpRoundTrip.AssertionsHold: says nothing of a buffer that leads out of the modelled states, where the table goes on.
- HttpParser.HttpParser.Execute: says nothing of such a buffer either.
- HttpParser.Dump: the header map is a list in map order; the callbacks of the server's parser class are the event trace.
- Ipv6.Insert: groups are taken in the processor's order, that is after the swap; parsing by inet_pton is not modelled.
- LogPattern.Init: building the format items from the tokens is left out; letters are those of the C locale.
- URI machine, HTTP responses and client parser, configuration, sockets, servers, daemon and logging output: not modelled.
