# Verified model of the mining core

This project models the parts of BFGMiner that carry state or arithmetic worth proving, and proves what they
keep, in Dafny. Each module follows one component of the program:

- **Device scheduler** (`deviceapi.c`). `ControlHandshake` is the hand-over of a device between the miner thread
  and threads that ask for it: a state machine over the steps between two synchronisation operations. `AsyncJobs`
  specifies the asynchronous job machine and `AsyncThread` performs it on the thread's fields; `QueueLoop` and
  `QueueThread` do the same for the queue loop. What drivers do in their call backs is an arbitrary finite script.
  `AsyncEffects` and `QueueEffects` say what a pass and a round achieve.
- **BitForce queue** (`driver-bitforce.c`). `BitForceQueue` specifies the operations on the one work list and its
  two counters, `BitForceDriver` performs them in place, `BitForceInvariant` proves what every run keeps,
  `BitForceFlush` is the multiset reconciliation with the device, and `BitForcePacket` the bulk packet.
  `BitForceEffects` says what the operations achieve and `BitForceWire` where each byte of the packet stands.
  `BitForceMining` puts the queue loop and this driver together.
- **Streaming SHA-256** (`SHA256Digest.c`). `Sha256` is FIPS 180-4 as a function; `Sha256Context` is the buffered form,
  and `Sha256Constants` proves where the constants come from.
- **RPC data** (`api.c`). `ApiText` (escaping, unescaping and pool details), `ApiFields` (the circular field list),
  `ApiGroups` (command groups and joined commands), `ApiEffects` (what a client reads, and what an option as it was
  written grants) and `DeviceNumbering` (registration and the numbering maps).
- **Wire formats**. `AvalonPackets`, `AvalonWire` and `AvalonJobs` (`driver-avalonmm.c`), `BitmainCrc` and
  `BitmainStatus` (`driver-bitmain.c`).
- **Kernels**. `BitfuryRing` and `BitfuryEffects` (`driver-bitfury.c`), and `AanPll` (`driver-aan.c`).

`Bits`, `Bytes`, `Options` and `Works` hold shared definitions.

Code that works step by step is modelled by methods, on classes where it updates the fields of a struct, and each
method is proved against a function on values; the lemmas are about those functions. Works are numbered in the
order they are fetched. Device replies, timers, and what other threads do are inputs. The modules named Effects and
Wire, and `Sha256Constants`, state what those functions do in terms of the inputs and the source's own numbers, apart
from the definitions: which work is current after a pass, which id each work of a batch gets, which byte stands where.

Assumptions that are part of the statements:

- A condition variable's signal wakes exactly one waiter if there is one, and waiters are not woken otherwise.
- `BitForceInvariant.Conforms` says what a conforming device does: it accepts no more jobs than it was offered,
  reports results of jobs it was sent, and its flush reports are consistent with what was sent. `FlushExact` shows that
  the last of these is necessary; `IdWalkExact` says when the code's own walk over the list is defined.
- A message hashed by `Sha256Context` has fewer than 2^61 bytes.

Where the code departs from what it is meant to do, the model follows the code and the exact condition is proved:
`StuckIffConcurrentRequests`, `ForgottenIffConcurrentRequests`, `RunFaultsIffUnarmed`, `IdWalkExact`, `FlushExact`,
`HashedBlocks`, `WrittenOverflows`, `JsonEscapeReadAsText`, `FifthMarkIsNeverSeen`, and the bounds in `AvalonPackets.RoundTrip`, `BitForcePacket.RoundTrip` and `SameTwelfth`.

## Model

| member | source | states |
|---|---|---|
| ControlHandshake.MutualExclusion | deviceapi.c:498-540 | For any number of requesting threads and any interleaving, while one thread is between request and release the miner thread is asleep in its condition wait and no other thread is between request and release. |
| ControlHandshake.StepKeepsInv | deviceapi.c:498-540 | Every step of every thread keeps the invariant: the mutex has exactly the owner that its holder believes, and at most one of the miner thread and the requesters has the device. |
| ControlHandshake.RunKeepsInv | deviceapi.c:498-540 | The invariant holds after every run of any length. |
| ControlHandshake.RequestAdvances | deviceapi.c:498-531 | With one request outstanding at a time, a request that is not yet granted always has a next step, and every possible step either brings it nearer or is a poll that changes nothing. |
| ControlHandshake.SingleNeverStuck | deviceapi.c:498-540 | With one request outstanding at a time, no reachable state is deadlocked. |
| ControlHandshake.TwoRequestsLoseTheDevice | deviceapi.c:500-507 | With two concurrent requests a state is reachable in which nobody asks for the device, nobody has it and the miner thread sleeps: the limit that the source's own comment admits. |
| ControlHandshake.LostForever | deviceapi.c:498-540 | From such a state no continuation of the run ever gives the device to anyone again. |
| ControlHandshake.StuckIffConcurrentRequests | deviceapi.c:500-540 | A stuck state is reachable if and only if there are at least two threads and at least two requests may be outstanding at once. |
| ControlHandshake.ForgottenIffConcurrentRequests | deviceapi.c:500-540 | A state in which the miner thread runs, a requester waits, and nothing changes any more unless somebody else asks, is reachable under exactly the same condition. |
| ControlHandshake.OneReadForTwo | deviceapi.c:501-507 | How that comes about: one read takes the bytes of two requests, and the release of the one wakes the miner thread instead of the other. |
| ControlHandshake.SingleNeverForgotten | deviceapi.c:498-540 | With one request outstanding at a time, no requester is left waiting like this. |
| ControlHandshake.ByteOutlivesItsRequest | util.c:3954-3976 | How it comes about: one read of the wake-up pipe can leave a later request's byte behind, and that byte is still there when both requests have been served. |
| ControlHandshake.MinerSleepsForNobody | deviceapi.c:501-507 | The miner thread then serves the byte that is left, although no request stands behind it, and goes to sleep. |
| ControlHandshake.PipeKeepsItsBytes | util.c:3954-3976 | Over all runs the bytes written to the wake-up pipe are still there or were read, at least one and at most sixteen at a time. |
| AsyncJobs.EveryRun | deviceapi.c:314-455 | After every run, whatever the driver does when a job is prepared or started, when results are fetched or processed, when it is disabled and when it polls, and however deep these calls nest: every work ever fetched is in exactly one of next_work, work and prev_work, freed exactly once, or dropped exactly once by an aborted start; the slots hold different works, older ones further along. |
| AsyncJobs.PassKeepsInv | deviceapi.c:573-631 | One pass of the loop over a processor, with any timers, pauses and driver behaviour, keeps that invariant. |
| AsyncJobs.DriveKeepsInv | deviceapi.c:356-455 | Any finite script of nested calls from a driver into the machine keeps it. |
| AsyncJobs.TransitionKeepsPlaces | deviceapi.c:413-430 | A transition moves works between slots and frees the oldest; it neither loses nor duplicates any. |
| AsyncJobs.TransitionFindsItsWork | deviceapi.c:413-430 | A transition to a new work finds next_work set exactly when the last prepare succeeded and no transition or failed prepare came after it; it then shifts the slots by one. |
| AsyncJobs.RunFaultsIffUnarmed | deviceapi.c:413-430 | A run dereferences a null next_work if and only if a driver makes a transition to a new work without such a prepare. |
| AsyncJobs.OneTransitionPerPrepareCanFault | deviceapi.c:333-345 | One transition per successful prepare is not enough of a discipline: a concrete run in which a restart prepares again, the driver's prepare_work fails on the new work, and the work prepared before is gone. |
| AsyncThread.Thread.MtJobTransition | deviceapi.c:413-430 | In place, on the thread's fields: exactly the transition of the specification. |
| AsyncThread.Thread.MtDisableStartAsync | deviceapi.c:314-322 | In place: the driver is told first, and may act; then the previous work is freed and the current one becomes previous. |
| AsyncThread.Thread.JobStartAbort | deviceapi.c:444-455 | In place: the current work is dropped without being freed, and nothing else is lost. |
| AsyncThread.Thread.JobResultsFetched | deviceapi.c:386-411 | In place: starts the next job, or has the results of the previous work processed and finishes stopping. |
| AsyncThread.Thread.JobStartComplete | deviceapi.c:432-442 | In place: nothing without a previous work; otherwise the driver processes its results, and may act. |
| AsyncThread.Thread.DoGetResults | deviceapi.c:371-384 | In place: fetching results, with or without a driver call back. |
| AsyncThread.Thread.JobPrepareComplete | deviceapi.c:356-369 | In place: waits while results are being fetched, fetches results of a running job for the new one to follow, or starts. AsyncEffects.NewJobStarts says what comes of it. |
| AsyncThread.Thread.DoJobPrepare | deviceapi.c:324-354 | In place: abandons or keeps the current work, replaces next_work, and reports failure when no work can be had. |
| AsyncThread.Thread.AsyncPass | deviceapi.c:573-631 | In place: one processor's share of the loop, including its jumps into the middle of other branches. |
| AsyncThread.Thread.MinerloopAsync | deviceapi.c:558-644 | In place: any number of passes ends in the state that the specification's run gives, so EveryRun holds of the thread's fields. |
| AsyncEffects.NewJobStarts | deviceapi.c:356-430 | A running processor that gives up its work goes over to the new one in one pass, with either kind of driver: the new work is current, the old one previous, nothing is next, and what was there before is freed. The device is not stopped. |
| AsyncEffects.RunningStops | deviceapi.c:594-617 | The mirror: a running processor that should not run ends the pass without a work and starts and fetches none. |
| AsyncEffects.ResultsLead | deviceapi.c:371-402 | Results that are wanted for a new job end in its start, and results that are wanted for stopping end in the stop. |
| AsyncEffects.IdleStarts | deviceapi.c:586-590 | A processor without a work is woken, gets a new one and starts it, all in one pass. |
| AsyncEffects.SameJobGoesOn | deviceapi.c:347-353 | A work that is worth going on with is started again; none is fetched or freed. |
| AsyncEffects.PreparedDuringResults | deviceapi.c:358-359 | While results are being fetched a new work is only prepared. |
| AsyncEffects.StartedAfterResults | deviceapi.c:386-402 | When they have come in it is started, unless the processor was told to stop meanwhile. |
| AsyncEffects.StopsAfterResults | deviceapi.c:605-612 | A stop while results are being fetched only sees to it that they start no job. |
| AsyncEffects.IdleStops | deviceapi.c:602-614 | A processor without a work is told to stop once, and its previous work is freed. |
| AsyncEffects.StopWaitsForTransition | deviceapi.c:596-602 | A stop waits for a transition that is under way. |
| AsyncEffects.FailedPrepareStops | deviceapi.c:623-624 | When the new work cannot be prepared, the processor is disabled and stopped in the same pass, and starts nothing. |
| AsyncEffects.FailedStartStops | deviceapi.c:444-455 | A failed start drops the work and disables the processor, so that the next pass fetches nothing. |
| AsyncEffects.AbortedStartRetries | deviceapi.c:444-455 | A start that is only put off is tried again with a new work in the next pass. |
| AsyncEffects.SlowStartWaits | deviceapi.c:577-579 | While a driver takes its time over a start, passes do nothing, and its transition then brings the new work. |
| AsyncEffects.PollAsksForWork | deviceapi.c:620-629 | A poll that sets the timer for more work makes a later pass go over to a new work. |
| AsyncEffects.PollDisables | deviceapi.c:582-602 | A poll that disables the processor makes the next pass stop it. |
| AsyncEffects.QuietPass | deviceapi.c:577-629 | A pass does nothing when there is no restart and no timer, or while a job is being started. |
| AsyncEffects.StartCompleteProcesses | deviceapi.c:432-442 | The driver processes results at a completed start exactly when there is a previous work. |
| AsyncEffects.StopProcesses | deviceapi.c:386-402 | The same before a stop, of which the driver is told; a stop starts no job. |
| AsyncEffects.PrepareIsCalled | deviceapi.c:344-352 | The driver prepares a job before it is started. |
| AsyncEffects.PollComesLast | deviceapi.c:627-629 | The poll comes after everything else in a pass. |
| QueueLoop.EveryRun | deviceapi.c:646-741 | After every run, whatever the driver answers: every work ever fetched was taken by the driver exactly once, or was freed exactly once, or is the one parked in next_work; the driver takes works in the order they were fetched. |
| QueueLoop.FillKeepsInv | deviceapi.c:690-709 | The filling loop keeps that invariant over any sequence of fetches, with whatever the driver answers. |
| QueueLoop.RoundKeepsInv | deviceapi.c:672-736 | A round with any pauses, restarts and flushes keeps it. |
| QueueThread.Thread.DoQueueFlush | deviceapi.c:646-658 | In place: flushes the driver's queue, then frees and clears the parked work. |
| QueueThread.Thread.Fill | deviceapi.c:690-709 | In place: the inner loop, against the specification. |
| QueueThread.Thread.MinerloopQueue | deviceapi.c:660-741 | In place: the whole loop, against the specification's run, whose rounds QueueEffects describes. |
| QueueEffects.RestartFlushes | deviceapi.c:687-709 | A restart flushes the driver's queue once, and the parked work is freed and never offered; if the queue is full even so, nothing is fetched or taken. |
| QueueEffects.StopFlushes | deviceapi.c:712-717 | A processor that has just stopped flushes once, frees the parked work and fetches nothing; one that is stopped already does nothing. |
| QueueEffects.RunningFlushesNothing | deviceapi.c:682-711 | Without a restart nothing is flushed: the parked work stays parked or is taken. |
| QueueEffects.RestartIsNotForgotten | deviceapi.c:673-691 | A restart that is asked for in any run is acted on in the first round that runs again. |
| QueueEffects.FillFreesOnlyNew | deviceapi.c:693-710 | The filling loop frees no work that was fetched before it, and asks for no flush. |
| QueueEffects.FillsTheQueue | deviceapi.c:693-710 | The loop goes on until the driver's queue is full, offers the parked work first, and fetches no more than it offers. |
| QueueEffects.RefusedIsParked | deviceapi.c:708-709 | A refused work is parked. |
| QueueEffects.ParkedIsTakenFirst | deviceapi.c:695-699 | A parked work is the next one the driver takes, before any is fetched. |
| QueueEffects.UnpreparedDisables | deviceapi.c:704-707 | A work that cannot be prepared is freed, ends the loop and disables the processor. |
| QueueEffects.OthersAreObeyed | deviceapi.c:719-730 | What a poll or another thread sets in a round holds after it, and nothing else differs. |
| BitForceInvariant.EveryRun | driver-bitforce.c:2045-2671 | After every run of appends, polls, results, flushes and reinitialisations with a conforming device: the list is the sent works followed by the unsent ones, with lengths queued and ready_to_queue, in append order and within both bounds; every work ever appended is on the list or was freed, never both and never twice. |
| BitForceInvariant.EventKeepsInv | driver-bitforce.c:2045-2694 | Every single operation keeps that invariant. |
| BitForceInvariant.AppendKeepsInv | driver-bitforce.c:2365-2405 | An append keeps it, and takes the work exactly when both bounds leave room. |
| BitForceInvariant.SendKeepsInv | driver-bitforce.c:2054-2176 | Sending keeps it when the device takes all, some or none of the offered jobs, and under the fallback to one job at a time. |
| BitForceInvariant.IdWalkExact | driver-bitforce.c:2153-2161 | The walk that hands out queue ids reaches exactly the works that were offered, if and only if something is already on the device or only one work is offered. |
| BitForceInvariant.IdWalkCanLeaveTheList | driver-bitforce.c:2153-2161 | A concrete queue on which that walk leaves the list. |
| BitForceInvariant.ResultsKeepInv | driver-bitforce.c:2184-2363 | Results keep it, in order or parallel, over any number of batches, with unknown and malformed lines among them. |
| BitForceInvariant.LineKeepsInv | driver-bitforce.c:2225-2326 | One result line keeps it and never touches the unsent part. |
| BitForceInvariant.AfterDeleteKeepsInv | driver-bitforce.c:2576-2628 | A flush first removes all unsent works and then the reported number of sent ones, newest first, clamped to the number sent; the result keeps the invariant. |
| BitForceInvariant.TextSanityKeepsInv | driver-bitforce.c:2630-2660 | Reconciling with a text report keeps the invariant, and what is left is the multiset intersection of the list and the report. |
| BitForceInvariant.BinaryReportExact | driver-bitforce.c:2526-2559 | Reconciling with a binary report leaves the intersection with the jobs in progress, and the count is right if and only if every job reported flushed is a sent one that is not in progress. |
| BitForceInvariant.FlushExact | driver-bitforce.c:2561-2671 | A flush keeps the invariant if and only if the device's report is consistent: for a binary report, the jobs reported flushed are sent ones not in progress, and where the count of jobs in progress is taken over, it is the number of works that the list and the report have in common. |
| BitForceInvariant.UnknownFlushedJobMiscounts | driver-bitforce.c:2509-2524 | A concrete inconsistent report that makes queued negative. |
| BitForceInvariant.TextCountMiscounts | driver-bitforce.c:2662-2670 | A concrete text report whose count of jobs in progress does not match its own list, and makes queued exceed the length of the list. |
| BitForceInvariant.ReinitKeepsInv | driver-bitforce.c:875-890 | Reinitialisation frees every work on the list and leaves an empty queue. |
| BitForceInvariant.ReconcileIsPartition | driver-bitforce.c:2443-2507 | Every work of the list is kept, dropped as flushed or dropped as missing, exactly one of them. |
| BitForceInvariant.ReconcileKeepsOrder | driver-bitforce.c:2453-2492 | What is kept stays in list order. |
| BitForceInvariant.OneAppend | driver-bitforce.c:2365-2405 | Both kinds of first append occur: one that is sent at once and one that could not be. |
| BitForceEffects.SendGivesIds | driver-bitforce.c:2153-2161 | A send gives the n-th work offered the n-th id of the reply, 0 when the reply has too few, and leaves the works sent before as they were. |
| BitForceEffects.DeviceTakes | driver-bitforce.c:2165-2175 | Taking some of the jobs moves the boundary by as many, the queue counts as full exactly when some are left, and what was put off or flushed is forgotten. |
| BitForceEffects.FallsBackToOne | driver-bitforce.c:2123-2142 | A device without the bulk command gets one job per send from then on. |
| BitForceEffects.NothingSent | driver-bitforce.c:2066-2136 | When nothing is sent no work and no counter changes, and only a device that says so makes the queue full. |
| BitForceEffects.SendKeepsWorks | driver-bitforce.c:2147-2163 | Without ids the works stay as they are. |
| BitForceEffects.AppendWaits | driver-bitforce.c:2372-2393 | A work for which there is room goes to the end of the list and waits unless one of five conditions holds. |
| BitForceEffects.AppendSends | driver-bitforce.c:2387-2402 | When one of them holds, the device is offered all that is ready at once. |
| BitForceEffects.FailedSendIsWanted | driver-bitforce.c:2395-2401 | A failed send is to be tried again, and the work stays on the list. |
| BitForceEffects.AppendRefuses | driver-bitforce.c:2372-2385 | A work for which there is no room is refused and leaves no trace; the works that are ready are offered instead. |
| BitForceEffects.LineRemovesReported | driver-bitforce.c:2301-2324 | A result frees the first work with its key, alone, or on a board that reports in order together with all before it. |
| BitForceEffects.HeaderNamesJob | driver-bitforce.c:2246-2258 | Without ids a result is about the first work with its midstate and data tail. |
| BitForceEffects.IdNamesJob | driver-bitforce.c:2230-2236 | With ids it is about the first work with that id, whatever its data. |
| BitForceEffects.OtherLinesChangeNothing | driver-bitforce.c:2279-2284 | A result about no listed work, or an unreadable one, changes nothing. |
| BitForceEffects.EveryLineCounts | driver-bitforce.c:2318-2324 | Over a whole batch with results in any order, each key is left as often as it was not reported, and the count of sent works follows the list. |
| BitForceEffects.BatchesGoOn | driver-bitforce.c:2328-2331 | A batch of sixteen is followed by another, a smaller one is not. |
| BitForceEffects.NoResults | driver-bitforce.c:2203-2222 | No answer or an empty one changes nothing. |
| BitForceEffects.FlushDeletesReported | driver-bitforce.c:2586-2628 | The number of jobs that the device says it flushed, clamped to those sent, is the number of sent works that go, newest first; all unsent ones go. |
| BitForceEffects.FlushWithoutCount | driver-bitforce.c:2606-2616 | Without a number exactly the unsent works go. |
| BitForceEffects.CountedFlush | driver-bitforce.c:2561-2671 | A whole flush with a count: what is left, what is freed and in which order, and the flags. |
| BitForceEffects.FlushFlags | driver-bitforce.c:2509-2524 | After the deletion the next works are to be sent at once, and a send that was put off is forgotten. |
| BitForceEffects.BinaryFlushFlags | driver-bitforce.c:2526-2559 | The same for a binary report. |
| BitForceEffects.SentAfterFlush | driver-bitforce.c:2391 | The first work after a flush is sent as soon as it is appended. |
| BitForceEffects.OthersDoNotFlush | driver-bitforce.c:2564-2566 | A processor that does not handle the board flushes nothing. |
| BitForceEffects.ReinitEmpties | driver-bitforce.c:875-890 | Reinitialisation frees the whole list, and the next work is to be sent at once. |
| BitForceEffects.PollDoesNoMore | driver-bitforce.c:2680-2684 | A poll does nothing when nothing is on the device and nothing was put off. |
| BitForceEffects.PollReadsResults | driver-bitforce.c:2680-2681 | A poll takes results off the list while something is on the device. |
| BitForceEffects.PollSendsWhatWasPutOff | driver-bitforce.c:2684-2685 | A poll makes up for a send that failed. |
| BitForceFlush.ReconcileMatches | driver-bitforce.c:2453-2492 | The reconciliation is exact multiset matching: per key, as many works as are in progress are kept, as many of the rest as were flushed are dropped as flushed, the remainder is missing, no count goes negative, and the table is left with what the list did not account for. |
| BitForceFlush.FirstComeFirstKept | driver-bitforce.c:2467-2491 | Which works are kept: the first ones in list order. |
| BitForceFlush.AddToProcessingCounts | driver-bitforce.c:2414-2434 | The table counts each reported key, in progress and flushed apart. |
| BitForceMining.EveryWorkIsSomewhere | deviceapi.c:646-741 | The queue loop and the BitForce driver together: after every run, each fetched work is parked by the loop, freed by the loop, on the driver's list, or freed by the driver: one of the four, once. |
| BitForceMining.AcceptedInFetchOrder | deviceapi.c:660-741 | From the fetch to the device, works are never overtaken: the jobs the device has accepted are works in the order the loop fetched them. |
| BitForceMining.RunKeepsInv | deviceapi.c:660-741 | The joint invariant over all runs: both invariants, and the works the loop counts as taken are exactly those the driver appended. |
| BitForceMining.LoopSeesFull | deviceapi.c:693-711 | After every run the flag that stops the filling loop is the driver's. |
| BitForceMining.FirstWorkReachesDevice | deviceapi.c:693-711 | The first work fetched reaches a board that has room, and the device. |
| BitForceMining.DisabledAndEnabled | deviceapi.c:680-717 | A processor may be disabled and enabled at any time, and its works stay where they are. |
| BitForceDriver.Board.SetQueueFull | driver-bitforce.c:2045-2052 | In place: the flag that both bounds decide. |
| BitForceDriver.Board.SendQueue | driver-bitforce.c:2054-2176 | In place: the counters, the flags and the ids as the specification has them after any two replies; BitForceEffects.SendGivesIds says which id each work gets. |
| BitForceDriver.Board.QueueAppend | driver-bitforce.c:2365-2405 | In place: appends when there is room, and sends when one of the five conditions asks for it. |
| BitForceDriver.Board.ProcessLine | driver-bitforce.c:2225-2326 | In place: the search by id or by header, and the removal of the work found or of all up to it, as BitForceEffects.LineRemovesReported has it. |
| BitForceDriver.Board.QueueDoResults | driver-bitforce.c:2184-2363 | In place: batches of results until a short one. |
| BitForceDriver.Board.SanityCheck | driver-bitforce.c:2443-2507 | In place: removal while iterating, against the reconciliation on values. |
| BitForceDriver.Board.FinishFlush | driver-bitforce.c:2509-2524 | In place: the count, the flags and queue_full, which is computed before ready_to_queue is cleared. |
| BitForceDriver.Board.ProcessFlbResult | driver-bitforce.c:2526-2559 | In place: the table of a binary report is built, reconciled and counted. |
| BitForceDriver.Board.QueueFlush | driver-bitforce.c:2561-2671 | In place: the whole flush, for all five kinds of reply; BitForceEffects.FlushDeletesReported and CountedFlush say what it leaves. |
| BitForceDriver.Board.Reinit | driver-bitforce.c:875-890 | In place: the queue part of reinitialisation. |
| BitForceDriver.Board.Poll | driver-bitforce.c:2673-2694 | In place: results first, then the send that was put off. |
| BitForcePacket.BuildPacket | driver-bitforce.c:2067-2101 | The packet written backwards through a moving pointer fills its buffer exactly, in both layouts, with the last works of the list in order. |
| BitForcePacket.RoundTrip | driver-bitforce.c:2067-2101 | A receiver that reads forwards gets exactly the offered works in order, if and only if their number fits the header: at most 5 for one layout and 255 for the other. |
| BitForcePacket.StatedLengthOf | driver-bitforce.c:2070-2074 | The length field states the packet's size, cut to the field's width. |
| BitForceWire.PacketLayout | driver-bitforce.c:2078-2101 | Each job's midstate, data tail and closing byte stand at their place in the packet, in list order, and the packet ends with its own closing byte. |
| BitForceWire.HeaderLayout | driver-bitforce.c:2091-2101 | The header holds the packet's length, marker and number of jobs, behind two letters on a 28nm board. |
| BitForceWire.SingleJob | driver-bitforce.c:2108-2109 | For a board that takes single jobs the part of the packet that is sent is exactly the job. |
| Sha256Context.Context.Initialize | SHA256Digest.c:81-85 | A context, new or used, is made to hold the empty message. |
| Sha256Context.Context.Update | SHA256Digest.c:87-97 | Buffering byte by byte: a context that holds a message holds the message with the input appended. |
| Sha256Context.Context.ProcessChunk | SHA256Digest.c:36-79 | The compression of the buffered chunk equals FIPS 180-4, section 6.2.2. |
| Sha256Context.Context.MakePadding | SHA256Digest.c:103-113 | The padding that the code builds: a one bit, zeros up to its own length, and the bit count in the last eight bytes. |
| Sha256Context.Context.Finalize | SHA256Digest.c:103-125 | The output is the digest of the code's padded stream, of which only whole blocks are hashed. |
| Sha256Context.ComputeDigest | SHA256Digest.c:127-132 | One shot: the same output as the code's digest of the whole message. |
| Sha256Context.DigestOfPieces | SHA256Digest.c:87-125 | However a message is cut into updates, the digest is that of the message. |
| Sha256Context.UpdateAll | SHA256Digest.c:87-97 | Any split of a message into updates leaves the same state. |
| Sha256Context.ShortPadding | SHA256Digest.c:104-113 | With fewer than 56 bytes buffered, the padded stream is that of FIPS 180-4, section 5.1.1. |
| Sha256Context.ShortDigest | SHA256Digest.c:103-125 | With fewer than 56 bytes buffered, the digest is that of FIPS 180-4. |
| Sha256Context.LongPadding | SHA256Digest.c:104 | With 56 or more bytes buffered, the padded stream is eight bytes short of the standard's and ends inside a block. |
| Sha256Context.HashedBlocks | SHA256Digest.c:103-125 | The padded stream is the standard's if and only if fewer than 56 bytes are buffered; otherwise exactly the standard's last block does not reach the hash. |
| Sha256Context.LongDigest | SHA256Digest.c:103-125 | In that case the digest is the hash value before the last block, and it agrees with the standard's if and only if that block compresses the hash value to itself. |
| Sha256Context.FiftySixBytes | SHA256Digest.c:104 | The shortest such message: the standard hashes two blocks and the code one. |
| Sha256.ZeroBytesIsLeast | SHA256Digest.c:104 | The reference padding uses the least number of zero bytes that leaves room for the length, as section 5.1.1 asks. |
| Sha256.AbsorbPrefix | SHA256Digest.c:36-97 | Hashing the first n blocks does not depend on what follows them. |
| Sha256Constants.RoundConstants | SHA256Digest.c:4-16 | The table of round constants holds the first 32 bits of the fractional parts of the cube roots of the first 64 primes. |
| Sha256Constants.FirstHashValue | SHA256Digest.c:18-22 | The first hash value is that of the square roots of the first eight. |
| ApiText.CountEscapes | api.c:628-655 | The first pass counts the characters to be escaped. |
| ApiText.EscapeString | api.c:623-681 | The second pass fills a buffer of exactly the counted size with the escaped text and its terminator, or returns null when nothing needs escaping. |
| ApiText.EscapeLength | api.c:628-660 | The first pass gives the exact output length. |
| ApiText.EscapeRoundTrip | api.c:623-681 | Reading escaped text up to a separator gives back exactly the text and leaves exactly the rest, for all strings. |
| ApiText.EscapeRoundTripAtEnd | api.c:2350-2365 | The same when the escaped text is the last of its line. |
| ApiText.JsonEscapeReadAsText | api.c:632-652 | Text escaped for JSON survives that reading if and only if it has no comma. |
| ApiText.CopyAdvanceAfter | api.c:2350-2365 | The loop through two moving pointers copies one piece, unescaped and terminated, and returns what follows it. |
| ApiText.ReadPoolDetails | api.c:2367-2407 | The offsets returned point at the url, the user, the password and the goal in one buffer; it fails exactly when a piece is missing. |
| ApiText.DetailsRoundTrip | api.c:2367-2407 | Escaped url, user and non-empty password are recovered. |
| ApiText.DetailsWithGoalRoundTrip | api.c:2367-2407 | With a goal, the password may be empty too. |
| ApiText.WrittenOverflows | api.c:2371-2400 | What is written overflows the allocated buffer, by one terminator, if and only if the parameter has exactly two commas and no backslash except possibly as its last character. |
| ApiText.SevenIntoSix | api.c:2371-2400 | Such a parameter, for which seven characters are written to a buffer of six. |
| ApiFields.AddData | api.c:711-821 | Adding a field appends it to the ring's sequence of nodes, whatever the kind of data, and keeps prev and next consistent. |
| ApiFields.AddExtra | api.c:683-708 | Splicing two rings, empty ones included, gives the ring of the concatenation. |
| ApiFields.FreeFirst | api.c:1070-1087 | Taking off the head leaves the ring of the others, or the empty list. |
| ApiFields.PrintData | api.c:949-1093 | The fields are printed in the order they were added, every node is freed once, in that order, and the list ends empty. |
| ApiFields.PrintedFieldsReadBack | api.c:949-1093 | What is printed for text clients reads back as the same names and values in the same order. |
| ApiEffects.PrintedObjectReadsBack | api.c:949-1093 | What is printed for JSON clients is an object that reads back as the same names and values in the same order. |
| ApiEffects.PrintedSectionReadsBack | api.c:949-1093 | What is printed for text clients, its opening and closing included, reads back likewise. |
| ApiEffects.NextObject | api.c:949-960 | Objects after the first are separated by a comma, and a missing value is shown as a string of its own. |
| ApiEffects.JsonString | api.c:632-652 | Text escaped for JSON reads back up to the closing quote, for every string. |
| ApiGroups.LookupIsMembership | api.c:3705-3706 | For names without separators, a name between separators is a substring of a group string if and only if it is one of the group's names. |
| ApiGroups.BuildGroup | api.c:3684-3734 | A group string is built exactly from the listed commands, plus all non-writing ones for a star, without duplicates, or fails on an unknown command. |
| ApiGroups.SetupGroup | api.c:3660-3740 | One definition is accepted exactly when it is valid, and its string then decides every lookup as the definition says. |
| ApiGroups.SetupGroups | api.c:3635-3766 | All definitions are set up exactly when all are valid; each group decides as defined, and no group is defined twice. |
| ApiGroups.SetupReadOnlyGroup | api.c:3743-3760 | Group R may do exactly the commands that do not write. |
| ApiEffects.WrittenGroupGrants | api.c:3684-3734 | A group written as a letter and words, in whatever case, may do exactly the commands that its words are the first match for, and with a star those that do not write. |
| ApiEffects.WrittenGroupIsValid | api.c:3660-3710 | It may be written so exactly when its letter is one other than R and W and not taken, in either case, and every word is known. |
| ApiEffects.SameInLowerCase | api.c:3698 | Two words are taken for the same exactly when they are equal in lower case. |
| ApiEffects.OtherDefinitionsAreInvalid | api.c:3660-3666 | A definition without a colon behind its first character is not accepted. |
| ApiEffects.NoLetterTwice | api.c:3672-3682 | No letter is defined twice, in either case. |
| ApiEffects.WrittenWordsAreRead | api.c:3686-3694 | Words written with a separator behind each are read as they were. |
| ApiEffects.PiecesAreWords | api.c:3686-3694 | And whatever is read contains no separator and, put together, is the text that was read. |
| ApiGroups.JoinOne | api.c:4339-4374 | One joined command: the reply and the buffer of names already seen. |
| ApiGroups.RunJoined | api.c:4330-4374 | The loop that cuts a joined command line at its separators and answers the words gives the replies of the specification. |
| ApiGroups.EachRunsOnce | api.c:4339-4374 | Each command that is named, joinable and allowed runs exactly once, and no other runs. |
| ApiEffects.EachIsAnswered | api.c:4339-4374 | Every unknown word is answered each time, and every known command that may not run is refused once. |
| ApiEffects.RepliesInOrder | api.c:4339-4374 | The replies come in the order of the words. |
| ApiEffects.LineIsItsWords | api.c:4330-4345 | A joined line is its words with separators between them. |
| DeviceNumbering.Registry.AddCgpu | deviceapi.c:799-846 | A device's processors are appended contiguously with the head first, linked in order, and what was registered before is unchanged. |
| DeviceNumbering.ThreadsConserved | deviceapi.c:817-841 | After any registrations, the processors' threads add up to the devices' threads. |
| DeviceNumbering.RegisteredIsContiguous | deviceapi.c:799-846 | After any registrations, every processor lies in an unbroken run that starts with its device's head. |
| DeviceNumbering.LinksVisitDevice | deviceapi.c:813-841 | Following next_proc from a device's first processor visits all its processors in order and no others, and each device begins where the one before it ends. |
| DeviceNumbering.AllRegistered | deviceapi.c:804-812 | There are as many processors as the devices ask for, and at least one each. |
| DeviceNumbering.NumPgas | api.c:1096-1109 | Counts the visible devices. |
| DeviceNumbering.PgaDevice | api.c:1111-1132 | Finds the visible device with a given number, or -1 exactly when there is none. |
| DeviceNumbering.FindIndex | api.c:1404-1424 | The backward walk counts the visible devices before a processor's head. |
| DeviceNumbering.MapsAreInverse | api.c:1096-1132 | The two maps are inverse: the index of the n-th visible device is n, and the device of a processor's index is its head. |
| DeviceNumbering.PgaIsUnique | api.c:1111-1132 | No number belongs to two devices. |
| AvalonPackets.WriteCmd | driver-avalonmm.c:63-97 | What is sent is the sequence of packets that the specification cuts the data into, or a prefix of it when a write fails. |
| AvalonPackets.Read | driver-avalonmm.c:100-162 | What is received is checked packet by packet and reassembled into a buffer of limited size. |
| AvalonPackets.RoundTrip | driver-avalonmm.c:63-162 | Writing and then reading gives the data padded with zeros and cut to the buffer, with consecutive indices; the size returned is right if and only if the data has at most 8160 bytes. |
| AvalonPackets.PacketCount | driver-avalonmm.c:65 | The number of packets is the number of 32-byte units, and at least one. |
| AvalonWire.PacketLayout | driver-avalonmm.c:63-97 | Each packet has its letters, command, number, count, 32 bytes of zero-padded data, and their checksum at their places. |
| AvalonWire.ReadExact | driver-avalonmm.c:100-162 | A reply is accepted if and only if each of the packets that the first one announces came with its letters, number, count and checksum right; it is then their joined data, cut to the buffer. |
| AvalonJobs.Chain.UpdateFromPool | driver-avalonmm.c:500-526 | In place: a job whose upload succeeded takes the next id, with 32-bit wraparound, and its slot of the cache; one whose upload failed leaves no trace. |
| AvalonJobs.Chain.JobFor | driver-avalonmm.c:615-627 | A returned id is accepted if and only if it is one of the last two uploaded, and the cached entry is then the job uploaded under it. |
| AvalonJobs.WindowExact | driver-avalonmm.c:615-620 | The two comparisons accept exactly the last two ids on either side of the wraparound. |
| BitmainCrc.Crc16 | driver-bitmain.c:362-374 | The table-driven loop computes the CRC of MODBUS over Serial Line V1.02, section 6.2.2, on every byte string. |
| BitmainCrc.TableEntry | driver-bitmain.c:309-360 | Each of the 256 pairs of table entries is what eight shifts of the bit-by-bit procedure make of its index. |
| BitmainCrc.Step | driver-bitmain.c:368-372 | One pass of the loop is one byte of the bit-by-bit procedure, from every state. |
| BitmainCrc.ShiftsXor | driver-bitmain.c:368-372 | The shifts are linear, which is why one table lookup can stand for eight of them. |
| BitmainStatus.AcceptsExactlyWellFormed | driver-bitmain.c:489-587 | The parser accepts a packet with given contents if and only if the contents are well formed and the packet is their serialization. |
| BitmainStatus.ParseSerialized | driver-bitmain.c:489-587 | Every well-formed packet is taken apart as it was put together: the walk over both groups of bitmaps meets the offset counted back from the end, and all fields are recovered. |
| BitmainStatus.AcceptedIsSerialized | driver-bitmain.c:489-587 | Whatever is accepted is the serialization of what is returned. |
| BitmainStatus.OverrunExact | driver-bitmain.c:505-587 | The parser reads or writes outside its bounds on a packet shorter than its header, and on one whose counts point before its beginning or behind its end or whose readings do not fit the record, and on nothing else. |
| BitmainStatus.LongestPacket | driver-bitmain.h:128-150 | No well-formed packet is longer than the limit that the callers put on the length field. |
| BitmainStatus.SlotHoldsPiece | driver-bitmain.c:539-564 | Each chain's words lie at the start of its own slot of eight words, with zeros after them. |
| BitmainStatus.CopyGroup | driver-bitmain.c:539-551 | In place: the loop over the chains copies each bitmap to its own slot, and leaves the packet exactly when the group is longer than it. |
| BitmainStatus.RxStatus.ParseRxStatus | driver-bitmain.c:489-587 | In place: succeeds, fails or leaves its bounds exactly as the specification says, and on success the record holds the packet's contents. |
| BitfuryRing.Chip.Poll | driver-bitfury.c:442-686 | In place, on the rotated copies: a poll does what the reference machine, which keeps the report as it came and uses modular indices, does; the same results are taken up in the same order. |
| BitfuryRing.Chip.InitOldbuf | driver-bitfury.c:120-180 | In place: up to four tries at finding the slot the chip writes, against the specification. |
| BitfuryRing.Chip.FindDiffer | driver-bitfury.c:147-163 | The comparison of two reports finds the only slot that differs; at the last try, the first. |
| BitfuryRing.Chip.CountUnchanged | driver-bitfury.c:495-506 | The loop counts the unchanged slots from the one waited on, and a full match is all sixteen. |
| BitfuryRing.Chip.Advance | driver-bitfury.c:664-668 | The rotation by n further slots keeps the copy equal to the report read from the new slot. |
| BitfuryRing.Chip.HandleResults | driver-bitfury.c:592-661 | In place: the loop over a poll's results, which finding the chip's generation ends early; the sample of results, and whether it was bad enough to start over. |
| BitfuryRing.NothingTakenUnknown | driver-bitfury.c:597-615 | While the chip's generation is not known, no result is taken up. |
| BitfuryRing.Candidate | driver-bitfury.c:147-168 | When no candidate is found, the reports are equal or differ in two places; when one is found before the last try, it is the only difference. |
| BitfuryRing.PollTakes | driver-bitfury.c:495-668 | A poll takes up the slots from the one waited on up to the first that changed, all of them unchanged since the last report, and the first that changed is waited on next. |
| BitfuryRing.TakenInRingOrder | driver-bitfury.c:442-686 | Once the chip's generation is known and between calibrations, however the polls fall, the results are taken up slot after slot round the ring, none left out and none twice. |
| BitfuryEffects.CalibratesAtChange | driver-bitfury.c:132-180 | Calibration waits on the slot that changed at the first try that shows a single change, or at the fourth on the first that changed, and keeps the report of that try. |
| BitfuryEffects.StaysUncalibrated | driver-bitfury.c:132-168 | When no try shows one, the chip stays uncalibrated and nothing is forgotten. |
| BitfuryEffects.UncalibratedCalibrates | driver-bitfury.c:455-459 | A poll of an uncalibrated chip calibrates it and takes up nothing. |
| BitfuryEffects.MisfitsAreIgnored | driver-bitfury.c:470-484 | Up to three reports in a row that do not fit the last one are counted and ignored. |
| BitfuryEffects.FourthMisfitCalibrates | driver-bitfury.c:473-479 | The fourth makes the chip be calibrated at once, and skips a forced reinitialisation. |
| BitfuryEffects.FullMatchIsAFault | driver-bitfury.c:497-505 | A report without any change makes the chip be calibrated at the next poll. |
| BitfuryEffects.TakesUpToChange | driver-bitfury.c:592-668 | A report that fits ends a row of misfits; the results before the first change are handled, and the report becomes the last one. A bad sample starts over, and a generation that was not found in time is 1. |
| BitfuryEffects.ForcedReinitialisation | driver-bitfury.c:670-682 | A forced reinitialisation changes nothing but that the chip is to be calibrated. |
| BitfuryEffects.SampleCounts | driver-bitfury.c:638-652 | The sample counts the results and the bad ones among them while it is neither full nor bad. |
| BitfuryEffects.EighthBadStartsOver | driver-bitfury.c:642-652 | The eighth bad result makes the chip start over, with a new sample. |
| BitfuryEffects.FullSampleStartsAnew | driver-bitfury.c:642-652 | The 64th result begins a new sample, and up to seven bad ones are forgiven. |
| BitfuryEffects.Detects | driver-bitfury.c:599-611 | One mark shows generation 2, and it takes more than sixteen to show generation 1. |
| BitfuryEffects.SevenBitsAreIgnored | driver-bitfury.c:599 | Seven bits of a nonce do not matter for the generation. |
| BitfuryEffects.FifthMarkIsNeverSeen | driver-bitfury.c:599-604 | One of the five values compared with the masked nonce has a bit set that the mask clears, so it is never found. |
| BitfuryEffects.MarksAddUp | driver-bitfury.c:596-643 | Until then the marks add up over results and polls, and no result is graded. |
| BitfuryEffects.DecidingResultIsLast | driver-bitfury.c:612-661 | The result that shows the generation ends the handling of its poll. |
| AanPll.Freq2Pll | driver-aan.c:56-83 | The retry loop terminates for every 32-bit request, at the first frequency that fits. |
| AanPll.FieldsDoNotOverlap | driver-aan.c:81 | The shifts and ors put the three fields side by side in 16 bits: each reads back. |
| AanPll.AcceptedIffExact | driver-aan.c:56-80 | The search accepts a frequency if and only if some setting of the register, with whatever dividers, runs at exactly that frequency. |
| AanPll.EncodeIsBest | driver-aan.c:47-83 | For every request of up to 16 bits, the decoded value of the encoding is the frequency the search stopped at, is at most the request, is exact, and is the greatest that any register setting can reach. |
| AanPll.SameTwelfth | driver-aan.c:97-110 | The quotient by 12 of the decoded value is that of the request if and only if the request is at most 6143. |

## Left out

- Sockets, serial lines, SPI, USB, curl, select, sleeping, logging, menus and option parsing: input and output. A device's replies and the outcome of a read or write are inputs of the model.
- `adl.c` and its headers: control of a foreign library.
- `setup_ipaccess` (`api.c:3837-3841`): its prefix loop shifts by a negative amount, which has no defined meaning.
- Floating-point hash rates, temperatures and wait times; `bitforce_queue_do_results` also adjusts its sleeping time and the hash meters, which the model omits.
- Device drivers other than those named above: wrappers over code in other files, or loops that would only add easy members.
- Spurious wake-ups of condition variables, and the early return of a control request made by the miner thread itself (`deviceapi.c:526-527`).
- ControlHandshake.MutualExclusion: threads other than the miner thread and the requesters do not touch the mutex in the model.
- AsyncJobs.EveryRun: a driver's prepare_work only says whether the work could be prepared; it does not call back into the machine. The watchdog is left out.
- AsyncThread.Thread.MinerloopAsync: one processor of a device; a device's other processors have slots of their own and run the same passes. Whether a timer has passed is an input of each pass.
- QueueThread.Thread.MinerloopQueue: one processor likewise.
- BitForceDriver.Board.FinishFlush: nothing is claimed about `queue_full` after a flush beyond what the code computes, which is from the counter before it is cleared.
- BitForceInvariant.EveryRun: a run ends where the walk that hands out queue ids would leave the list; IdWalkExact says when that is.
- BitForceDriver.Board.SendQueue: the list is a sequence of works, so the pointers of the doubly linked list are not modelled; positions in the sequence take their place.
- BitForceDriver.Board.QueueDoResults: how a line's text is parsed into a key, and the nonces it carries, are inputs.
- BitForceDriver.Board.ProcessFlbResult: the ids read are an input, a short read included; the table is a map, in which a hash table's order of iteration does not show.
- BitForcePacket.RoundTrip: jobs have midstates of 32 bytes and tails of 12, as the fields they are copied from do.
- Sha256Context.Context.Update: an input of at most 2^31 - 1 bytes, because the loop counts in an int and is not defined beyond.
- Sha256Context.LongDigest: that no message makes its last block compress the hash value to itself is not provable here; the two digests are shown to differ exactly when that is so.
- ApiFields.PrintedFieldsReadBack: names, and values that the program does not escape, are without the characters that escaping is for; otherwise a text client cannot tell them from separators. The text that number formats print is an input.
- ApiGroups.SetupGroups: the limited size of the buffer in which a group string is put together.
- ApiGroups.EachRunsOnce: the command table is a parameter; what the commands do is left out.
- DeviceNumbering.MapsAreInverse: a device's id is its index in the array, as it is once registration is complete.
- DeviceNumbering.Registry.AddCgpu: renumbering, the names of devices, and locks.
- AvalonPackets.RoundTrip: the checksum function and its byte order are parameters, the same for writing and reading; the driver writes most significant byte first and reads least significant byte first.
- BitmainCrc.Crc16: the length argument's cut to 16 bits is made by the caller in the model.
- BitmainStatus.RxStatus.ParseRxStatus: what happens once the code reads outside the packet or writes outside an array of the record; the model only says when. Bitmap words are kept as their bytes, and the host is little-endian. The `found_blocks` statistic is left out.
- BitfuryRing.Chip.Poll: job transitions, which are those of the asynchronous machine, and the clock measurement and frequency choice. How a result is decoded and whether it fits the current or the previous work are inputs. The host is little-endian.
- AanPll.EncodeIsBest: requests above 16 bits, which the 16-bit divider cuts; the code promises nothing above 6132.
- `bitmain_queue_append` after a failed send: no invariant to state.
