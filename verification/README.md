# Verified model of the ACM configuration compiler

The ACM configuration library (`ngn.acm-config`) turns streams, their operations and
their schedules into fixed-size hardware tables. The ACM driver (`ngn.ngn-dd/acm`) writes
these tables and keeps some small state machines beside them. This project models both
and proves that what is written decodes back to what was configured. Tables are given
small interpreters: a scheduler that adds up row delays and keeps reception windows open or
closed, a gather and a prefetch engine that run rows until the last flag, a scatter engine
that stores messages. The statements
compare what these engines do with the configuration.

`dafny verify dfyconfig.toml` checks all files.

| file | content |
|---|---|
| `Entities.dfy`, `Arith.dfy` | entities, constants, C's rounding and unsigned wrap-around |
| `FscList.dfy`, `Expansion.dfy`, `Schedules.dfy` | the sorted command list, expansion of schedules, adding a schedule as a transaction |
| `Actions.dfy`, `Windows.dfy`, `ReceptionWindows.dfy` | what a command makes the scheduler do, the state of reception windows, and that they are open as requested |
| `SchedTable.dfy` | delta encoding of the command list, NOP rows, the driver's decoding of row offsets |
| `DmaProgram.dfy`, `Layout.dfy`, `DmaTables.dfy`, `DmaWriter.dfy` | gather, prefetch, scatter and constant buffer: programs, layout, table images, writers |
| `ValidateStream.dfy`, `Validate.dfy`, `ValidateConfig.dfy` | the validation of streams, modules and configurations, and what acceptance is worth to the writers |
| `Budgets.dfy`, `Acceptance.dfy` | what the budgets count, and the verdict on a module in terms of its streams, frames, periods and commands |
| `MsgBuffers.dfy`, `BufferAlloc.dfy` | the message buffer allocator: placement on values, and the loops that compute it in place |
| `Operations.dfy` | adding an operation to a stream as a transaction, the header of a sender |
| `Linking.dfy`, `Apply.dfy` | enabling a configuration: index calculation, validation, allocation and writing joined into one statement |
| `Scheduled.dfy` | the scheduler table and the DMA tables together: what is sent, opened and closed at which tick |
| `RecoveryTimer.dfy`, `NoFrames.dfy`, `Recovery.dfy`, `RecoveryDriver.dfy` | recovery timers of section 7.4.3 of IEEE Std 802.1CB-2017, and the clear-on-read flags shared with diagnostics |
| `StartTime.dfy` | the start time of a schedule table |

Code that changes objects in place is modelled by classes and methods with loops; each
method is proved against a function of its inputs or of the old state, and the promises
are lemmas about these functions. Hardware commands are records rather than bit words. A
write to a table file replaces one row; a section under a mutex is one atomic step; the
clock, the register contents and the delays of the chip are parameters. Indexes, offsets and
ids of message buffers wrap as in the code, in 8, 16 and 5 bits. Other widths of the C types
are preconditions: cycle time plus delays below 2^32, milliseconds times ticks below 2^32.

## What the model shows about the code

* A redundant sender with exactly three operations never gets the last flag, because the
  row with the flag would be the R-tag (`DmaProgram.GatherProgramStops`); the hardware runs
  on into the next stream (`DmaProgram.HeaderOnlySenderRunsOn`, with an input in
  `DmaProgram.HeaderOnlySenderExample`). The 64-byte minimum of the final validation keeps
  such a stream from being applied.
* The field for a message buffer in a move or store command has five bits, while the locks
  have 64 and the validation counts against the number the device reports. The operations of
  a stream use their own buffers if and only if all their indexes are below 32
  (`DmaTables.SenderProducesItsFrame`, `DmaTables.ReceiverStoresItsReads`); buffer 32 is
  locked, but buffer 0 is moved (`DmaProgram.Buffer32FetchedFromBuffer0`,
  `DmaProgram.Buffer32StoredInBuffer0`). With up to 32 buffers, the number `buffer.h:42`
  speaks of, all is as intended (`Apply.EnabledStreamIsServed`).
* When two senders are paired, only one of the two lists is recalculated. The stale
  indexes of the other overlap the next stream exactly under the condition of
  `Layout.UnrefreshedSenderOverlaps`, and its row with the last flag is lost
  (`DmaTables.UnrefreshedSenderLosesLastRow`, with an input in
  `DmaTables.UnrefreshedSenderExample`), so that the wrong frame is sent
  (`DmaTables.UnrefreshedSenderSendsOtherFrame`). `Layout.StaleIndexIsFresh` says exactly
  which indexes are stale. `Apply.ConfigEnable` therefore requires indexes as
  the calculate functions leave them, and `Apply.RefreshAndEnable` calls these first.
* The description of `calculate_redundancy_indizes` in `stream.h:455-470` lets the result
  depend on the module id. The code numbers the list that was changed and copies each
  number to the partner, for either module; the model follows the code.
* In serial mode only the window start is delayed by the switch, so a window can open
  later than requested (`Expansion.SerialWindowOpensInTime`, with an input in
  `Expansion.SerialWindowOpensLate`).
* The check of the gaps does not look across the end of the cycle. For windows this matters in
  one case only: a window of the whole cycle that ends and starts again within the last tick is
  accepted, and then open in that tick alone (`ReceptionWindows.SplitOpensOneTick`, input:
  `ReceptionWindows.SplitByLastTickExample`). All other accepted windows are open as requested
  (`ReceptionWindows.OpenExactlyAsRequested`).
* Ticks of windows are brought into the cycle by one subtraction, which suffices exactly
  under the conditions of `Expansion.OpenTickInCycle` and `Expansion.CloseTickInCycle`
  (an input that breaks them: `Expansion.DelayOfTwoCycles`).
* A send time at the very end of the period with no delay is the only way for an event time
  to leave the cycle (`Expansion.EventTimesInCycle`, input: `Expansion.EventAtEndOfPeriod`).
  A time within half a tick of the end of the cycle is rounded up to the cycle itself;
  `Expansion.EventTicksInCycle` says exactly when no tick of a schedule is (input:
  `Expansion.EventRoundedUpToCycle`).
* The length of a message with its timestamp is a 16-bit sum. It wraps for lengths that the
  creation functions of operations refuse (`MsgBuffers.OplenWraps`), and for no others.
* The allocator refuses a configuration that leaves only one block of the message memory
  free (input: `MsgBuffers.OneBlockFreeIsRefused`), and checks nothing when there is no
  module. Its sum has 16 bits: 65536 blocks count as none
  (`BufferAlloc.WrappedTotalSeemsFree`). `BufferAlloc.AllocationVerdict` is the verdict below
  that, and the number of buffers keeps every valid configuration there when the hardware has
  blocks of four bytes (`ValidateConfig.BuffersVerdict`).
* A delayed start time waits for the remainder of the distance modulo 64 s, which is zero
  when the distance is a multiple of it; the next look then follows at once
  (`StartTime.DelayEndsOnWindow`, input: `StartTime.NoDelayBeforeTwoWindows`).
* The number of NOP rows the validation expects is one too high for some gaps and never
  too low (`SchedTable.EstimateBoundsNopRows`, input: `SchedTable.NopEstimateOneTooHigh`).

## Model

| member | source | states |
|---|---|---|
| FscList.RunIsStableSort | ngn.acm-config/src/sysfs.c:346-377 | over any run of insertions and withdrawals of schedules, the command list is the stable sort (by tick, arrival order within a tick) of what was added and not withdrawn |
| FscList.StableSortUnique | ngn.acm-config/src/sysfs.c:346-377 | there is only one such list: sorted lists with the same commands on every tick are equal |
| FscList.InsertKeepsStableSort | ngn.acm-config/src/sysfs.c:355-374 | one insertion in front of the first later command keeps the list a stable sort of all arrivals |
| FscList.WithoutKeepsStableSort | ngn.acm-config/src/module.c:236-254 | removing the commands of one schedule keeps the order and the commands of all others |
| FscList.Rollback | ngn.acm-config/src/module.c:213-230 | however many commands of a new schedule were created, removing that schedule gives back the original list exactly |
| FscList.InsertAllAdds | ngn.acm-config/src/sysfs.c:346-377 | the list gains exactly the commands of the schedule, each as often as it was created |
| FscList.AddFscToModuleSorted | ngn.acm-config/src/sysfs.c:346-377 | the in-place insertion (empty list, append after the last, search) computes the specified insertion |
| FscList.RemoveScheduleSysfsItemsSchedule | ngn.acm-config/src/module.c:236-254 | the in-place removal loop leaves exactly the commands of other schedules |
| Expansion.CreateEventSysfsItems | ngn.acm-config/src/sysfs.c:180-234 | the loop that extends itself for negative times terminates and inserts exactly cycle / period event commands; what they do is Expansion.EventsRunProgram |
| Expansion.EventsRunProgram | ngn.acm-config/src/sysfs.c:215-231 | a send schedule makes the scheduler run the program of its stream, with the redundancy index of the stream, at the ticks of its events, and do nothing else at any tick |
| Expansion.EventPass | ngn.acm-config/src/sysfs.c:194-217 | one pass: skipped exactly while the time lies before the cycle, otherwise the tick of the next event; no unsigned sum wraps |
| Expansion.EventTimesInCycle | ngn.acm-config/src/sysfs.c:192-217 | all event times lie in [0, cycle) if and only if not (send time == period and delay == 0) |
| Expansion.EventsAreIdealModuloCycle | ngn.acm-config/src/sysfs.c:192-217 | event j is an ideal send time less the delay, modulo the cycle, each ideal event exactly once; neighbours are one period apart |
| Expansion.EventTickNearTime | ngn.acm-config/src/sysfs.c:215-218 | a tick is within half a tick of its time, and is pushed to the end of the cycle exactly when the time is that close to it |
| Expansion.EventTicksInCycle | ngn.acm-config/src/sysfs.c:215-218 | all n event ticks of a schedule stay below the end of the cycle if and only if the first event time plus half a tick lies below the period |
| Expansion.EventAtEndOfPeriod | ngn.acm-config/src/sysfs.c:192-217 | an input that breaks the first condition: sent at the very end of its period with no delay, every event leaves its period, and the last the cycle |
| Expansion.EventRoundedUpToCycle | ngn.acm-config/src/sysfs.c:215-218 | an input that breaks the second: an event less than half a tick before the end of the cycle gets the tick of the end |
| Expansion.CreateWindowSysfsItems | ngn.acm-config/src/sysfs.c:236-344 | cycle / period windows are inserted, each as two commands at its two ticks; what they do is Expansion.WindowsOpenAndClose |
| Expansion.WindowsOpenAndClose | ngn.acm-config/src/sysfs.c:286-337 | a receive schedule makes it open the window of its rule at the open ticks and close it at the close ticks, where it also triggers the recovery stream on the frames of the rule if there is one, and do nothing else |
| Expansion.WindowStart | ngn.acm-config/src/sysfs.c:236-344 | tick of a window start in serial and in parallel mode, without wrap-around |
| Expansion.WindowEnd | ngn.acm-config/src/sysfs.c:236-344 | tick of a window end, rounded up, without wrap-around |
| Expansion.ParallelWindowCoversRequest | ngn.acm-config/src/sysfs.c:236-344 | parallel mode: one conditional subtraction brings both ticks into the cycle, and they are floor and ceiling of the delayed times, so no window is narrower than requested |
| Expansion.OpenTickInCycle | ngn.acm-config/src/sysfs.c:262-294 | one subtraction brings the open tick of a window into the cycle if and only if its delayed start lies below two cycles, in either mode |
| Expansion.CloseTickInCycle | ngn.acm-config/src/sysfs.c:296-306 | and the close tick, which is rounded up, if and only if its delayed end does not lie behind two cycles less one tick |
| Expansion.DelayOfTwoCycles | ngn.acm-config/src/sysfs.c:262-294 | an input that breaks both: a delay of two cycles leaves the ticks outside the cycle |
| Expansion.SerialWindowOpensInTime | ngn.acm-config/src/sysfs.c:262-294 | serial mode: up to whole cycles the open tick of a window is the last one not after start plus switch delay, and it is not after the start if and only if the switch delay does not carry the start into the next tick |
| Expansion.SerialWindowOpensLate | ngn.acm-config/src/sysfs.c:262-294 | an input for which the window opens later than requested |
| Expansion.ExpandedCommandsActive | ngn.acm-config/src/sysfs.c:180-344 | expanded commands refer to their schedule and are never no-operations |
| Actions.ActiveDoes | ngn.acm-config/src/sysfs.c:404-490 | a command that is not a no-operation does something, and only such a command |
| Windows.OpenExactlyInside | ngn.acm-config/src/sysfs.c:236-344 | a scheduler that repeats a command list keeps the window of a rule open in exactly the ticks of given windows, if their edges are the edges of the rule and none lies within another window |
| ReceptionWindows.PauseOfATick | ngn.acm-config/src/sysfs.c:262-311 | an accepted schedule leaves at least a tick between its windows, also across the end of the cycle, but for one kind of request |
| ReceptionWindows.WindowsInTurn | ngn.acm-config/src/sysfs.c:262-311 | so every window closes before the next one opens, and the last one before the first of the next cycle |
| ReceptionWindows.OpenExactlyAsRequested | ngn.acm-config/src/sysfs.c:236-344 | after a receive schedule has been accepted, in either mode and with the end before or behind the start, the window of its rule is open in exactly the ticks that a delayed requested window reaches into, cycle after cycle, if and only if it is not a window of the whole cycle that ends and starts again within the last tick |
| ReceptionWindows.SplitOpensOneTick | ngn.acm-config/src/sysfs.c:262-311 | such a window is requested for every tick, and open only in the last one of the cycle |
| ReceptionWindows.SplitByLastTickExample | ngn.acm-config/src/libacmconfig.c:369-376 | such a request, which the API lets through: from 996 ns to 995 ns in a cycle of 100 ticks of 10 ns |
| Schedules.ModuleAddSchedules | ngn.acm-config/src/module.c:161-234 | adding a schedule to a module is a transaction: a rejected one leaves the command list exactly as it was, an accepted one is in it; accepted if and only if tick and stream type allow it and stream and module are valid with it |
| Schedules.ConfigAddSchedules | ngn.acm-config/src/validate.c:108-131 | the same for a module of a configuration, whose message buffers are allocated anew: accepted if and only if these suffice as well; all operations of all streams are kept but for their links |
| Schedules.CreateScheduleItems | ngn.acm-config/src/module.c:182-211 | events for senders, windows for receivers, with the gather index of the recovery stream behind the receiver |
| Schedules.ScheduleDoes | ngn.acm-config/src/module.c:182-211 | what a new schedule makes the scheduler do, tick by tick: a sender runs its own program with its own redundancy index at every event; for a receiver its own rule opens and closes, and the recovery stream behind it is triggered where it closes |
| Schedules.ValidateAdded | ngn.acm-config/src/validate.c:108-168 | the checks of the stream and of its module both decide |
| SchedTable.WriteFscSchedulesToHw | ngn.acm-config/src/sysfs.c:492-653 | round trip: read back with summed delays, the non-NOP rows are the commands of the list in order at their absolute ticks, in RowCount rows; delays are 8..65535 if the gaps pass the check; within 1024 rows it succeeds if and only if every command knows its stream |
| SchedTable.ProgressIs | ngn.acm-config/src/sysfs.c:492-653 | the progress that the writing loops keep track of is what the rows do when they are read back: commands with their times, duration, number of rows and bounds of the delays |
| SchedTable.WriteLeadingNops | ngn.acm-config/src/sysfs.c:534-561 | leading NOP rows add up to the first tick, each within its bounds |
| SchedTable.WriteFollowingNops | ngn.acm-config/src/sysfs.c:598-620 | the splitting loop terminates and its NOP rows add up to the rest of the gap |
| SchedTable.WriteRowAndGap | ngn.acm-config/src/sysfs.c:574-620 | a command row and the NOPs behind it last exactly the gap, in 1 + NopRows rows |
| SchedTable.WriteCommandAndGap | ngn.acm-config/src/sysfs.c:565-623 | one command row and its NOPs lead exactly to the tick of the next command |
| SchedTable.UpdateFscIndexes | ngn.acm-config/src/sysfs.c:404-490 | a command gets the indexes its stream has now, and fails exactly when a link is missing; what it does with them is Scheduled.ResolvedDoesAsAsked |
| SchedTable.EstimateBoundsNopRows | ngn.acm-config/src/module.c:517-541 | the validator estimate delta / 60000 is never below the NOP rows of the splitting loop, and one above exactly for the stated remainders |
| SchedTable.NopEstimateOneTooHigh | ngn.acm-config/src/module.c:517-541 | a gap for which it is one above |
| SchedTable.RowsOfEstimate | ngn.acm-config/src/module.c:517-541 | rows before any command, and one for each gap whose estimate is one too high, are exactly what the estimates add up to |
| SchedTable.AcceptedListFitsTable | ngn.acm-config/src/validate.c:226-238 | a list is within the event limit if and only if its rows, leading NOP included, and one for each gap whose estimate is one too high are at most 1024 |
| SchedTable.CalcNopSchedulesForLongCycles | ngn.acm-config/src/module.c:517-541 | the loop computes the sum of the estimates |
| SchedTable.CheckModuleSchedulingGaps | ngn.acm-config/src/validate.c:560-602 | accepts if and only if every gap is at least 8 ticks, a first command at tick 0 excepted |
| SchedTable.AcceptedCommandsApart | ngn.acm-config/src/validate.c:560-602 | any two commands of an accepted list are at least 8 ticks per list position apart |
| SchedTable.GapsOkMeans | ngn.acm-config/src/validate.c:560-602 | the check accepts a list if and only if any two commands are 8 ticks per list position apart and the first is at the start of the cycle or 8 ticks behind it |
| SchedTable.InsertedApart | ngn.acm-config/src/validate.c:560-602 | any two commands of a schedule that was accepted are 8 ticks apart |
| SchedTable.RowDecodes | ngn.ngn-dd/acm/sysfs_config.c:975-991 | the linear offset of the library decodes in the driver to the same scheduler, table and row if and only if the row is below 1024 |
| SchedTable.SchedDriver.WriteRow | ngn.ngn-dd/acm/sysfs_config.c:975-991 | a written item changes the decoded row and nothing else |
| SchedTable.WrittenStaysInTable | ngn.acm-config/src/sysfs.c:587-591 | at most 1024 rows written in sequence are found again, and no other table or scheduler changes |
| DmaProgram.GatherProgramStops | ngn.acm-config/src/sysfs.c:1342-1432 | running the gather rows stops at the end of the program, whatever follows, if and only if there are operations and it is not a redundant sender with exactly three |
| DmaProgram.HeaderOnlySenderRunsOn | ngn.acm-config/src/sysfs.c:1342-1432 | a redundant sender with three operations runs on into the rows of whatever stream follows it |
| DmaProgram.HeaderOnlySenderExample | ngn.acm-config/src/sysfs.c:1342-1432 | such a sender: the header alone |
| DmaProgram.LastFlagOnFinalRowOnly | ngn.acm-config/src/sysfs.c:1342-1432 | no row but the final one carries the last flag |
| DmaProgram.GatherProgramBuildsFrame | ngn.acm-config/src/sysfs.c:1271-1440 | the program assembles exactly the operations of the stream in order, with the redundancy tag after the third for a redundant sender |
| DmaProgram.FrameSoFarIsIntended | ngn.acm-config/src/sysfs.c:1289-1440 | the frame built up one operation at a time is the intended one at every prefix |
| DmaProgram.RowsAssembleFrame | ngn.acm-config/src/sysfs.c:1289-1440 | each prefix of rows assembles the frame of that prefix of operations |
| DmaProgram.PrefetchProgramFetchesMessages | ngn.acm-config/src/sysfs.c:1289-1396 | the prefetch rows lock exactly the buffers of the INSERTs and fetch in order the messages of the buffers that five bits name; without INSERT they are one NOP |
| DmaProgram.FrameNameable | ngn.ngn-dd/acm/api/acmdrv.h:1551-1552 | the parts fetched are the intended ones if and only if all buffers of the INSERTs have an index below 32 |
| DmaProgram.AssembleWithIds | ngn.ngn-dd/acm/api/acmdrv.h:92-93 | with the messages of the named buffers the same rows build the same frame from these buffers |
| DmaProgram.Buffer32FetchedFromBuffer0 | ngn.ngn-dd/acm/api/acmdrv.h:1699-1712 | an input: the message of buffer 32 is fetched from buffer 0, while buffer 32 is locked |
| DmaProgram.LockRowsLockVector | ngn.acm-config/src/sysfs.c:1300-1338 | the rows of 16 bits each lock exactly the buffers of their groups |
| DmaProgram.LockVectorIsInsertBuffers | ngn.acm-config/src/sysfs.c:1289-1298 | the lock vector is the set of buffers of the INSERT operations |
| DmaProgram.LastMoveOnly | ngn.acm-config/src/sysfs.c:1379-1396 | only the move of the last INSERT has the last flag |
| DmaProgram.ScatterProgramStoresReads | ngn.acm-config/src/sysfs.c:1068-1143 | the scatter rows of a receiver decode to its READs in order, to the buffers that five bits name, with last on the final one only |
| DmaProgram.ReadsNameable | ngn.ngn-dd/acm/api/acmdrv.h:1387-1388 | these are its own buffers if and only if all of them have an index below 32 |
| DmaProgram.Buffer32StoredInBuffer0 | ngn.ngn-dd/acm/api/acmdrv.h:1518-1532 | an input: what buffer 32 is to hold goes to buffer 0 |
| DmaProgram.LastStoreOnly | ngn.acm-config/src/sysfs.c:1099-1110 | only the row of the last READ has the last flag |
| Layout.CalculateGatherIndizes | ngn.acm-config/src/stream.c:696-730 | the in-place loop gives every stream the row of the specified layout; what is found there is DmaTables.SenderProducesItsFrame, DmaTables.IdleSendsNothing and, for forwarding receivers, Apply.ApplyModule |
| Layout.CalculateScatterIndizes | ngn.acm-config/src/stream.c:732-759 | the in-place loop gives every receiver the row of the specified layout |
| Layout.CalculateLookupIndizes | ngn.acm-config/src/stream.c:645-666 | the in-place loop numbers the receivers; all other streams get 0 |
| Layout.LookupOrder | ngn.acm-config/src/stream.c:645-666 | receivers have different entries, in list order, below their number |
| Layout.GatherRangesDisjoint | ngn.acm-config/src/stream.c:696-730 | row ranges of max(gather, prefetch) rows are pairwise disjoint, start at 2 or later and stay within the counted budget |
| Layout.GatherRangeInBudget | ngn.acm-config/src/validate.c:273-295 | every range ends within the rows that the validation counts |
| Layout.ScatterRangeInBudget | ngn.acm-config/src/validate.c:297-311 | every scatter range starts at 1 or later and ends within the counted ingress rows |
| Layout.ScatterRangesDisjoint | ngn.acm-config/src/stream.c:732-759 | scatter ranges of different receivers are disjoint |
| Layout.UnrefreshedSenderOverlaps | ngn.acm-config/src/stream.c:320-326 | where indexes are not recalculated after a sender became redundant, its range reaches into the next one if and only if its gather commands already filled it |
| Layout.StaleIndexIsFresh | ngn.acm-config/src/stream.c:320-326 | the old index of a stream is still the right one if and only if it is not that of the sender itself without operations, and not that of a stream with rows of its own behind a sender whose range is full or empty; scatter indexes never change |
| DmaTables.UnrefreshedSenderLosesLastRow | ngn.acm-config/src/stream.c:320-326 | its program then has one row more than reserved, and that row, the one with the last flag, is overwritten by the first row of the next stream |
| DmaTables.UnrefreshedSenderRunsOn | ngn.acm-config/src/stream.c:320-326 | triggered through its old index the sender runs its rows but the last, and then those of the next stream |
| DmaTables.UnrefreshedSenderSendsOtherFrame | ngn.acm-config/src/stream.c:320-326 | so it does not send what it asks for, whatever the other tables hold |
| DmaTables.UnrefreshedSenderExample | ngn.acm-config/src/stream.c:320-326 | such an input: two senders of three header constants and a PAD, the first of which becomes redundant |
| Layout.SameLayout | ngn.acm-config/src/stream.c:696-759 | the layout depends only on stream types and operation codes |
| Layout.StreamNumGatherOps | ngn.acm-config/src/stream.c:783-813 | counts the gather commands, with one more for a redundant sender |
| Layout.StreamNumPrefetchOps | ngn.acm-config/src/stream.c:840-863 | counts four lock commands and one move per INSERT, or one NOP |
| Layout.StreamNumScatterOps | ngn.acm-config/src/stream.c:815-838 | counts the READ operations |
| Layout.CalculateRedundancyIndizes | ngn.acm-config/src/stream.c:668-694 | recalculating either list of two modules paired one to one leaves partners with equal indexes, streams of one list with different ones, all in 1..number of redundant streams |
| Layout.RanksAgree | ngn.acm-config/src/stream.c:668-694 | assigning by rank in one list gives both lists agreeing indexes |
| Layout.RankOrder | ngn.acm-config/src/stream.c:668-694 | ranks of redundant streams are distinct and within the count |
| DmaTables.SharedGatherRowsKept | ngn.acm-config/src/sysfs.c:1154-1268 | shared rows 0 and 1 keep the NOP and the forward-all command through every later write |
| DmaTables.SharedPrefetchRowsKept | ngn.acm-config/src/sysfs.c:1154-1268 | and their prefetch rows stay NOPs |
| DmaTables.ProgramsStay | ngn.acm-config/src/sysfs.c:1145-1230 | no later stream overwrites the programs of a sender |
| DmaTables.SenderProducesItsFrame | ngn.acm-config/src/sysfs.c:1145-1440 | in the finished tables, triggering the gather index of any sender of at least 64 bytes locks its buffers and produces its frame, from these buffers if and only if their indexes are below 32 |
| DmaTables.IdleSendsNothing | ngn.acm-config/src/stream.c:711-712 | in the finished tables the gather index of a stream without gather commands runs the NOP of row 0, which sends nothing and never forwards a frame |
| DmaTables.SenderStoresNothing | ngn.acm-config/src/stream.c:732-759 | and the scatter index of a stream that is not looked up stores nothing |
| DmaTables.IntendedIfNameable | ngn.acm-config/src/sysfs.c:1384-1396 | what a sender gets is what it asks for if and only if five bits can name the buffers of its INSERTs |
| DmaTables.MinimumFrameHasMoreOps | ngn.acm-config/src/validate.c:43-58 | 64 bytes need operations beyond the 16 bytes of the header |
| DmaTables.CalcStreamEgressFramesize | ngn.acm-config/src/validate.c:400-424 | computes the bytes of the frame |
| Operations.StreamAddOperation | ngn.acm-config/src/stream.c:146-206 | an operation is added if and only if the stream type allows it and the stream is valid with it; the list is unchanged otherwise; types, lengths and the header are kept |
| Operations.ConfigAddOperation | ngn.acm-config/src/operation.c:333-390 | the same for a stream of a configuration: stream, module and message buffers are validated with it, and a rejected operation is taken out again; in every stream of both modules only links differ then |
| Operations.StreamSetEgressHeader | ngn.acm-config/src/stream.c:331-439 | a sender without operations takes every complete header, and its frame then starts with the destination address, the source address (the placeholder of the port for zeros) and a tag of 0x8100, priority and VLAN identifier; an event stream takes from the incoming frame what is given as ones; if anything fails the list is as it was |
| Operations.HeaderBuildsFrame | ngn.acm-config/src/stream.c:331-439 | the three operations build that start of the frame |
| Operations.VlanTagBits | ngn.acm-config/src/stream.c:346-351 | the four bytes decode to priority and identifier |
| Operations.FreshHeaderFits | ngn.acm-config/src/stream.c:353-439 | no check of a stream refuses a header, but for a partner in the wrong place |
| Operations.OpcodesByType | ngn.acm-config/src/stream.c:154-199 | the opcodes that each type of stream takes |
| Operations.AdmitsMeans | ngn.acm-config/src/stream.c:168-189 | everything is forwarded at most once, and not beside an event stream |
| Operations.OperationListFlushUser | ngn.acm-config/src/operation.c:394-420 | the loop leaves exactly the three operations of the header |
| Operations.StaysOk | ngn.acm-config/src/config.c:219-236 | the reallocation of buffers keeps types, lengths and header of a stream |
| DmaTables.ReceiverStoresItsReads | ngn.acm-config/src/sysfs.c:1068-1143 | in the finished scatter table every receiver performs its READs in order, or the NOP of row 0, on its own buffers if and only if their indexes are below 32 |
| DmaTables.ScatterProgramsStay | ngn.acm-config/src/sysfs.c:1068-1143 | no later receiver overwrites the scatter program of another |
| DmaTables.PlacedStays | ngn.acm-config/src/sysfs.c:896-930 | a constant once copied stays at its offset whatever is copied behind it |
| DmaWriter.WriteGatherEgress | ngn.acm-config/src/sysfs.c:1271-1440 | writes exactly the gather and prefetch programs of a sender, and fails if and only if an operation is not one of a sender |
| DmaWriter.WriteGatherIngress | ngn.acm-config/src/sysfs.c:1232-1269 | writes the forward-all command of a receiver, if it has one |
| DmaWriter.WriteLockCommands | ngn.acm-config/src/sysfs.c:1300-1338 | writes the lock rows of the non-empty groups, or the NOP |
| DmaWriter.WritePrefetcherGatherDma | ngn.acm-config/src/sysfs.c:1145-1230 | the loop over all streams writes the specified table images |
| DmaWriter.WriteScatterStream | ngn.acm-config/src/sysfs.c:1099-1135 | writes the scatter program of one receiver; the look-ahead finds the last READ |
| DmaWriter.WriteScatterDma | ngn.acm-config/src/sysfs.c:1068-1143 | the loop over all streams writes the specified table image |
| DmaWriter.WriteDataConstantBuffer | ngn.acm-config/src/sysfs.c:896-930 | every INSERT_CONSTANT finds its own bytes at its recorded offset within 4096 bytes; nothing else of the operations changes |
| DmaWriter.TriggeredSenderSendsItsFrame | ngn.acm-config/src/module.c:305-372 | after constants, scatter, gather and prefetch data are written, every sender sends what was configured, from its own buffers if and only if their indexes are below 32 |
| DmaWriter.TriggeredReceiverStoresItsReads | ngn.acm-config/src/module.c:305-372 | and every receiver stores what was configured, under the same condition |
| DmaWriter.WriteModuleDataToHw | ngn.acm-config/src/module.c:305-372 | writing a module establishes what the two statements above need, in the order of the source |
| Validate.ValidateModule | ngn.acm-config/src/validate.c:170-344 | no error if and only if no condition is violated, and every error code names a violated one |
| Validate.RunChecks | ngn.acm-config/src/validate.c:170-344 | the checks in the order of the source decide the same verdict |
| Validate.ValidateStreams | ngn.acm-config/src/validate.c:193-224 | streams on their own (finally), constants and redundant streams |
| Validate.ValidateStreamList | ngn.acm-config/src/validate.c:133-168 | the loop accepts only if every stream passes, and an error is one of a stream |
| Validate.FineHavePartners | ngn.acm-config/src/validate.c:80-90 | a redundant stream without partner does not pass the final checks, so the check of the periods finds one |
| ValidateStream.ValidateStreamAlone | ngn.acm-config/src/validate.c:31-106 | frame length, pairing across modules and configurations, forwarded offsets, payload and number of inserts; every error code names a violated condition |
| ValidateStream.CheckStreamPayload | ngn.acm-config/src/validate.c:604-662 | the loop computes the frame length and the position in the received frame; a FORWARD that skips too much or too long a frame is an error |
| ValidateStream.CheckTies | ngn.acm-config/src/validate.c:60-106 | accepts exactly the partners in different modules of one configuration, as far as they are known, or finally known |
| ValidateStream.ViolatedNotFine | ngn.acm-config/src/validate.c:31-106 | a stream that is accepted violates no condition |
| Validate.ValidateSchedule | ngn.acm-config/src/validate.c:226-271 | schedule events, cycle, periods and gaps |
| Validate.ValidateTables | ngn.acm-config/src/validate.c:273-332 | egress rows, ingress rows and lookup entries |
| Validate.CheckScheduleEvents | ngn.acm-config/src/validate.c:226-238 | the event limit: one row less if the first command is not at tick 0 |
| ValidateStream.StreamCheckPeriods | ngn.acm-config/src/validate.c:490-558 | accepts exactly if every period is not zero and divides the cycle and, finally, the schedules of redundant partners are aligned; what that means for the streams is Acceptance.FinalPeriodsPass |
| ValidateStream.CheckAlignment | ngn.acm-config/src/validate.c:519-553 | aligned means: at most one schedule on either side, as many on both, each with the cycle as its period |
| Validate.AcceptedSenderIsSendable | ngn.acm-config/src/validate.c:43-58 | a sender of an accepted module can be sent |
| Validate.AcceptedRedundancyIndexes | ngn.acm-config/src/validate.c:211-224 | in an accepted module the redundancy indexes given by rank are in 1..31 and distinct |
| Validate.AcceptedScheduleStaysInItsTable | ngn.acm-config/src/validate.c:226-238 | the rows of an accepted schedule stay in their table |
| Acceptance.AcceptanceMeans | ngn.acm-config/src/validate.c:170-344 | the whole verdict on a module: accepted if and only if its constants, table rows, lookup and redundancy entries, counted on the streams themselves, fit the hardware, its commands fit a schedule table and are 8 ticks apart, every period goes into the cycle, and finally every stream passes and all partners agree |
| Acceptance.ErrorMeans | ngn.acm-config/src/validate.c:170-344 | every error code of the validation names something that is wrong with the module or one of its streams, counted on these |
| Acceptance.PeriodsPassIfWhole | ngn.acm-config/src/validate.c:490-517 | the check of the periods passes if and only if for every schedule of every stream some number of periods is the cycle |
| Acceptance.FinalPeriodsPass | ngn.acm-config/src/validate.c:490-558 | the final check if and only if moreover redundant partners have as many schedules, at most one, with the period of the cycle |
| Acceptance.AcceptedPeriods | ngn.acm-config/src/validate.c:512-516 | in an accepted module every period goes into the cycle, and a module with another one is refused |
| Acceptance.AcceptedPartnersApart | ngn.acm-config/src/validate.c:60-106 | the final check of where partners belong passes if and only if they are in one configuration and not in the same module |
| Acceptance.AcceptedEvents | ngn.acm-config/src/validate.c:226-271 | so the events of every schedule of an accepted module lie in the cycle but for the one exception, and are then the ideal times less the delay |
| Acceptance.AcceptedWindows | ngn.acm-config/src/validate.c:226-271 | and an accepted receive schedule in a cycle of whole ticks meets what ReceptionWindows.OpenExactlyAsRequested asks for |
| Acceptance.AcceptedWindowCovers | ngn.acm-config/src/validate.c:226-271 | in parallel mode the ticks of its windows lie in the cycle and cover the delayed request |
| Budgets.OwnRowsMeans | ngn.acm-config/src/stream.c:711-725 | a stream has rows of its own if and only if it is a sender with something to write; any other counts as one row |
| Budgets.RowsOfPrograms | ngn.acm-config/src/validate.c:273-295 | the rows counted for a sender are those of its gather program, or at most three more than those of its prefetch program |
| Budgets.EgressRowsCounted | ngn.acm-config/src/validate.c:273-295 | the egress rows counted are those the layout uses and one for each stream that shares a row |
| Budgets.IngressRowsCounted | ngn.acm-config/src/validate.c:297-311 | the ingress rows counted are exactly those the layout uses |
| Budgets.EntriesCounted | ngn.acm-config/src/validate.c:209-224 | one lookup entry is counted for every receiver, one redundancy entry for every redundant stream |
| Budgets.AcceptedLookups | ngn.acm-config/src/validate.c:313-332 | in an accepted module every receiver has one of the 16 lookup entries to itself |
| Budgets.ModuleConstantsCounted | ngn.acm-config/src/validate.c:197-207 | the constant buffer is charged with the bytes of all constants |
| Budgets.FrameSizeIsLength | ngn.acm-config/src/validate.c:400-424 | the size that is checked is the length of the frame the stream sends, less the redundancy tag |
| Budgets.AcceptedFrame | ngn.acm-config/src/validate.c:43-58 | senders of a finally accepted module send 64 to 1518 bytes with at most eight messages |
| Budgets.DroppedIsFurthest | ngn.acm-config/src/validate.c:604-662 | the check of forwarded offsets follows a received frame from which just so many bytes are dropped that the FORWARD furthest ahead so far can be served |
| Budgets.ReachableMeans | ngn.acm-config/src/validate.c:604-662 | it accepts a stream if and only if no FORWARD makes it drop more than 19 further bytes |
| Budgets.StreamFineMeans | ngn.acm-config/src/validate.c:31-168 | the verdict on a stream on its own, in terms of its frame, its messages, the bytes it drops and the place of its partner |
| ValidateConfig.ValidateBuffers | ngn.acm-config/src/validate.c:383-397 | succeeds if and only if no name is used in both directions, the memory suffices and the buffers are not more than the hardware has; then every operation is linked and the buffers are the allocation |
| ValidateConfig.BuffersVerdict | ngn.acm-config/src/validate.c:383-397 | more names than the hardware has buffers are refused, whatever 16-bit offsets come to; fewer never leave 16 bits |
| ValidateConfig.DeviceOffsetsFit | ngn.ngn-dd/acm/commreg.c:420-448 | what the driver reports of its hardware is enough for that: blocks of 4 bytes, and a number of buffers of seven bits |
| ValidateConfig.StillAllocatable | ngn.acm-config/src/config.c:219-236 | after links have changed the configuration can be given to the allocator again |
| ValidateConfig.ValidateConfigFinal | ngn.acm-config/src/validate.c:346-398 | succeeds if and only if both modules pass finally, no stream is without work and the message buffers can be allocated |
| ValidateConfig.CheckModuleOpExists | ngn.acm-config/src/validate.c:426-463 | true if and only if every stream has an operation or is a receiver whose reference does the work |
| Budgets.HasWorkMeans | ngn.acm-config/src/validate.c:426-463 | a stream has work if and only if it puts something into a frame, stores or forwards what is received, or triggers another stream |
| Linking.LinkedIsWritable | ngn.acm-config/src/config.c:300-318 | streams whose operations are linked to at most 64 numbered buffers meet what the table writers require, with the same layout and constants |
| Linking.FewBuffersNameable | ngn.acm-config/src/buffer.h:42 | up to 32 buffers can all be named in the commands |
| Apply.AllocatedModuleIsWritable | ngn.acm-config/src/config.c:119-150 | a module that passed the final validation and whose buffers are allocated meets everything the table writers require |
| Apply.AppliedSenderSendsItsFrame | ngn.acm-config/src/config.c:119-150 | in the tables written for such a module the gather index of every sender with its header makes it lock exactly its buffers and send its frame, from these buffers if and only if their indexes are below 32 |
| Apply.AppliedReceiverStoresItsReads | ngn.acm-config/src/config.c:119-150 | and the scatter index of every receiver makes it store its READs, under the same condition |
| Apply.ApplyModule | ngn.acm-config/src/module.c:305-372 | one module written: every stream still asks for what was configured, every READ and INSERT is linked to the buffer of its own name and direction, and each stream works: senders send their frame, receivers store their READs or forward, streams without gather commands send nothing, and senders store nothing |
| Apply.ConfigEnable | ngn.acm-config/src/config.c:119-150 | the whole way: succeeds if and only if the final validation does, and then the buffers are the allocation of the requests, every operation is linked to the buffer of its name, every sender with its header sends its frame and locks its buffers, every receiver stores its READs, every forwarding receiver names the forward-all row, every other receiver and every stream without operations a row that sends nothing; otherwise no table changes and all operations are kept |
| Apply.EnabledStreamIsServed | ngn.acm-config/src/buffer.h:42 | with up to 32 buffers the frames come from exactly the intended buffers and the READs go there |
| Apply.EnabledOperationHasItsBuffer | ngn.acm-config/src/config.c:300-318 | after enabling, every READ and INSERT uses the buffer of its own name and direction, and its message fits there |
| Apply.RefreshAndEnable | ngn.acm-config/src/stream.c:607-643 | the same from indexes of any age: the calculate functions come first, and nothing is assumed of the indexes |
| Scheduled.ApplySchedule | ngn.acm-config/src/application.c:101-117 | the schedule written last: every command of the list is executed at its tick and does what it asks for with the present indexes of its stream, and each one that triggers a sender of the module, or the recovery stream behind a receiver, makes the tables send its frame |
| Scheduled.ResolvedNamesTarget | ngn.acm-config/src/sysfs.c:404-490 | a command with current indexes names the gather program of the stream it triggers |
| Scheduled.ResolvedDoesAsAsked | ngn.acm-config/src/sysfs.c:404-490 | a window edge opens or closes the rule that looks up the stream of its schedule, a send event runs the program of its stream with its redundancy index if it is a redundant sender and 0 if not, a conditional trigger runs the recovery stream for that rule; and nothing else |
| Scheduled.WindowsServed | ngn.acm-config/src/application.c:101-117 | from the request to the hardware: the table keeps the rule of a receiver open in exactly the ticks that a requested window reaches into, with the one exception |
| Scheduled.EventsServed | ngn.acm-config/src/application.c:101-117 | and it sends the frame of a sender at the ticks of the events of its schedule, and for this schedule at no others |
| Scheduled.OtherReceiversElsewhere | ngn.acm-config/src/stream.c:645-666 | because of the lookup indexes the edges of other receivers are edges of other rules |
| MsgBuffers.BlocksHoldMessage | ngn.acm-config/src/config.c:238-282 | the blocks of a created operation are the fewest that hold its message itself, timestamp included for READ |
| MsgBuffers.BlocksForQuotient | ngn.acm-config/src/config.c:276-282 | quotient plus one for a rest is the fewest blocks that hold so many bytes |
| MsgBuffers.OplenIsMessageSize | ngn.acm-config/src/config.c:238-251 | the 16-bit length is the size of the message if and only if that fits 16 bits, as it does for every operation the creation functions let through |
| MsgBuffers.OplenWraps | ngn.acm-config/src/operation.c:42-47 | a length those functions refuse, for which one byte would be reserved |
| MsgBuffers.PlacementIsAllocation | ngn.acm-config/src/config.c:253-323 | a successful placement has one buffer per name, serves every request, and each size is the maximum of its requests |
| MsgBuffers.PlacementFailsOnConflict | ngn.acm-config/src/validate.c:669-712 | placement fails if and only if one name is used in both directions |
| MsgBuffers.PlaceStreamsPlacesRequests | ngn.acm-config/src/config.c:272-327 | working stream by stream is placing all requests one after the other |
| MsgBuffers.BufferEndsBefore | ngn.acm-config/src/config.c:302-318 | a buffer ends before any later one begins and before the end of the used memory |
| MsgBuffers.TotalUpdate | ngn.acm-config/src/buffer.c:131-161 | growing a buffer in the middle moves every later offset by the difference |
| MsgBuffers.NamedBufferServes | ngn.acm-config/src/config.c:300-318 | the buffer with the name of a request is the one that serves it |
| MsgBuffers.AllocationAtMost | ngn.acm-config/src/config.c:276-282 | no buffer is larger than the longest message needs, so n buffers take at most n times its blocks |
| MsgBuffers.OneBlockFreeIsRefused | ngn.acm-config/src/config.c:325-336 | an input that leaves one block of the memory free, and is refused |
| BufferAlloc.UpdateOffsetAfterBuffer | ngn.acm-config/src/buffer.c:131-161 | after a buffer has grown, one pass restores every offset to the sum of the sizes before it, in 16 bits |
| BufferAlloc.BufferNameCheck | ngn.acm-config/src/validate.c:669-712 | finds the first buffer of the name; the other direction is an error |
| BufferAlloc.PlaceBuffer | ngn.acm-config/src/config.c:276-319 | one operation: share, grow or append, with index, offsets and running total kept, and the link to the buffer |
| BufferAlloc.AllocateStream | ngn.acm-config/src/config.c:272-327 | all operations of a stream, whatever their links were before |
| BufferAlloc.CreateHwMsgBufListModule | ngn.acm-config/src/config.c:253-338 | one module, skipped if absent, refused if its buffers leave no block of the memory free |
| BufferAlloc.CreateHwMsgBufList | ngn.acm-config/src/config.c:340-364 | succeeds if and only if no name is used in both directions and after each module that is there the 16-bit sum of the sizes leaves a block free; the list is then the allocation, with 8-bit indexes in list order and 16-bit offsets |
| BufferAlloc.AllocationVerdict | ngn.acm-config/src/config.c:325-361 | while the sizes fit 16 bits this is so if and only if no name is used in both directions and, unless there is no module, the memory suffices |
| BufferAlloc.AllocatesIfEnough | ngn.acm-config/src/config.c:325-361 | because the memory in use never shrinks from module to module |
| BufferAlloc.WrappedTotalSeemsFree | ngn.acm-config/src/config.c:325-336 | an input whose 65536 blocks pass the check of a memory that is too small |
| BufferAlloc.FailureIsFinal | ngn.acm-config/src/config.c:354-359 | a module that fails, fails the configuration |
| BufferAlloc.CleanAndRecalculateHwMsgBuffs | ngn.acm-config/src/config.c:219-236 | recalculation gives the same result whatever buffers and links existed before, and even after a failure no operation keeps a link to anything but the present buffer of its own name and direction |
| BufferAlloc.StreamCleanMsgBuffLinks | ngn.acm-config/src/stream.c:125-144 | removes the links and changes nothing else |
| BufferAlloc.OperationHasItsBuffer | ngn.acm-config/src/config.c:300-318 | every READ and INSERT of every stream of both modules is linked to the buffer of its own name and direction, and its message fits there |
| BufferAlloc.BuffersDoNotOverlap | ngn.acm-config/src/config.c:300-336 | buffers lie one behind the other inside the message memory, while the sizes fit 16 bits |
| RecoveryTimer.StartTicksCoverTimeout | ngn.ngn-dd/acm/redundancy.c:228-232 | the start value is the least number of ticks that last the whole timeout |
| RecoveryTimer.RemainingTicksOfRun | ngn.ngn-dd/acm/redundancy.c:581-626 | after any run of settings and ticks the remaining ticks are N minus the quiet ticks modulo N, hence in 1..N |
| RecoveryTimer.FiresOnEveryNthIdleTick | ngn.ngn-dd/acm/redundancy.c:581-626 | the timeout fires exactly on every N-th consecutive tick without progress and never while switched off |
| NoFrames.FlagsOfRun | ngn.ngn-dd/acm/bypass.c:318-332 | after any interleaving of raises, polls and reads: the register holds the flags nobody has fetched, the cache those fetched and not yet reported |
| NoFrames.ReadReportsOutstanding | ngn.ngn-dd/acm/bypass.c:605-623 | a read reports every flag raised before it that no read has reported, whatever happens between its two locked sections |
| NoFrames.AtomicReadReports | ngn.ngn-dd/acm/bypass.c:605-623 | an uninterrupted read reports true if and only if the flag was raised since the previous read of that rule |
| NoFrames.ReadKeepsOtherRules | ngn.ngn-dd/acm/bypass.c:605-623 | reading one rule loses no flag of another |
| NoFrames.DiagOfRun | ngn.ngn-dd/acm/bypass.c:318-332 | diagnostics gets every flag fetched since its last reset, whatever recovery took |
| NoFrames.CounterIsSumOrOverflow | ngn.ngn-dd/acm/bypass.c:264-299 | an accumulated counter is the exact sum of all readings, or the overflow value exactly when a reading saturated or the sum does not fit below it |
| NoFrames.BypassDiagAcculmulate | ngn.ngn-dd/acm/bypass.c:264-299 | the loop accumulates every counter of the block on its own |
| Recovery.RuleFollowsTimer | ngn.ngn-dd/acm/redundancy.c:581-602 | a rule sees as idle exactly the ticks before which a missing frame was reported since recovery last looked |
| Recovery.IndividualTimeoutFires | ngn.ngn-dd/acm/redundancy.c:581-602 | the take-any bit of a rule is set exactly on every N-th consecutive tick without a frame |
| Recovery.BaseFollowsTimer | ngn.ngn-dd/acm/redundancy.c:609-629 | an entry sees as idle exactly the ticks at which its sequence number has not moved since the last look |
| Recovery.BaseTimeoutFires | ngn.ngn-dd/acm/redundancy.c:609-629 | the take-any bit of an entry is set exactly on every N-th consecutive tick without movement |
| RecoveryDriver.Bypass.DiagOrNoFramesReceived | ngn.ngn-dd/acm/bypass.c:318-332 | a poll changes no pending flag of any rule |
| RecoveryDriver.Bypass.TakeNoFrameFlag | ngn.ngn-dd/acm/bypass.c:615-620 | the second locked section of a read: reports and removes the cached flag of one rule, and nothing else |
| RecoveryDriver.Bypass.RecoveryNoFrameReceived | ngn.ngn-dd/acm/bypass.c:605-623 | both sections with nothing between them: returns whether the flag of the rule is pending and clears only that one |
| RecoveryDriver.Redundancy.RecoveryProcess | ngn.ngn-dd/acm/redundancy.c:636-650 | one tick: every rule of both modules and every base entry makes its own step, exactly the take-any bits of those that time out are added, and diagnostics loses no flag |
| RecoveryDriver.Redundancy.IndividualRecoveryProcess | ngn.ngn-dd/acm/redundancy.c:581-602 | one rule makes its step; no other rule is touched, and diagnostics loses no flag |
| RecoveryDriver.Redundancy.BaseRecoveryProcess | ngn.ngn-dd/acm/redundancy.c:609-629 | one entry makes its step; no other entry is touched |
| RecoveryDriver.Redundancy.SetIndividualRecoveryTimeout | ngn.ngn-dd/acm/redundancy.c:332-361 | sets and enables one rule with a fresh flag and full remaining ticks; out of range changes nothing; no take-any bit changes and diagnostics loses no flag |
| RecoveryDriver.Redundancy.SetBaseRecoveryTimeout | ngn.ngn-dd/acm/redundancy.c:386-415 | sets and enables one entry with the current sequence number and full remaining ticks; out of range changes nothing |
| StartTime.AdjustedIsNextCandidate | ngn.ngn-dd/acm/scheduler.c:245-269 | a past start moves to the earliest time after now in phase with the request; any other stays |
| StartTime.WrittenWithinWindow | ngn.ngn-dd/acm/scheduler.c:271-289 | a look writes if and only if the start is less than 64001 ms ahead |
| StartTime.PastStartIsWrittenAtOnce | ngn.ngn-dd/acm/scheduler.c:245-289 | a past start is never delayed, because cycle times have 30 bits |
| StartTime.DelayEndsOnWindow | ngn.ngn-dd/acm/scheduler.c:271-284 | a delay ends before the start, a whole number of 64 s windows away; it is zero exactly when it already was such a number |
| StartTime.NoDelayBeforeTwoWindows | ngn.ngn-dd/acm/scheduler.c:271-284 | a distance with a delay of zero |
| StartTime.RegistersNameOneTime | ngn.ngn-dd/acm/scheduler.c:155-166 | 30 bits of nanoseconds and 8 bits of seconds name one time among those less than 256 s ahead |
| StartTime.RegistersNameTheTime | ngn.ngn-dd/acm/scheduler.c:155-166 | the registers hold the time in nanoseconds modulo 256 s: low and high part, and seconds |
| StartTime.StartOfRun | ngn.ngn-dd/acm/scheduler.c:228-290 | whatever the clock read at any number of earlier looks, a start that is written is in phase with the request, not before now and within the window, and its registers name it modulo 256 s and no other time that near |
| StartTime.TimeKeepsPhase | ngn.ngn-dd/acm/scheduler.c:228-290 | the time of the table stays in phase with the request |
| StartTime.SchedTable.WriteStartTimeExecute | ngn.ngn-dd/acm/scheduler.c:228-290 | one look: writes time, registers and trigger, or leaves the table as it is |

## Left out

- The gap between the last and the first command across the cycle boundary: the code does not check it, so nothing is claimed of it beyond the windows of one schedule.
- ReceptionWindows.OpenExactlyAsRequested: is for one schedule per rule and a cycle of whole ticks, for windows that start before the end of the next one (in serial mode the switch delay can carry a start behind it) and whose delays stay within the next cycle; windows of several schedules of one receiver are covered by `Windows.OpenExactlyInside` where no edge lies within another window.
- FscList.RemoveScheduleSysfsItemsSchedule: models the removal as the filter it is meant to be; the loop of the source follows the link of an element it has already freed.
- SchedTable.CalcNopSchedulesForLongCycles: does not model ticks of 2^31 and more, which the signed difference of the source would misread; cycles of 32 bits of nanoseconds stay far below.
- Validate.ValidateModule: takes as given where each stream and its partner belong (`ties`); looking that up in the lists is not modelled.
- BufferAlloc.CreateHwMsgBufList: does not model failing memory allocation, nor 32-bit overflow of block count times block size.
- Apply.ConfigEnable: assumes that the driver reports at most 64 message buffers, as many as the lock commands can lock; does not model writing the buffer descriptions, the base recovery table and the configuration identifier. The schedules written last are those of `Scheduled.ApplySchedule`.
- Apply.RefreshAndEnable: recalculates gather and scatter indexes; redundancy and lookup indexes are those of `Layout.CalculateRedundancyIndizes` and `Layout.CalculateLookupIndizes`.
- ValidateConfig.ValidateBuffers: asks that as many of the longest messages as there are buffers fit 16-bit offsets (`OffsetsFit`), which what the driver reports of its hardware does (`ValidateConfig.DeviceOffsetsFit`).
- Operations.StreamAddOperation: does not model ownership of an operation by another list, applied configurations, and the recalculation of indexes by the caller.
- Operations.StreamSetEgressHeader: the memory of an operation is not released when it fails.
- Schedules.ConfigAddSchedules: asks for start, end and send times within the period, as the creation function of schedules does.
- DmaWriter.WriteModuleDataToHw: covers constants, scatter, gather and prefetch data; lookup tables, lookup control, redundancy control table and speed registers of the same function are plain copies.
- RecoveryTimer.RemainingTicksOfRun: the number of ticks per second is constant and not zero; the module parameter can be changed while the driver runs.
- RecoveryDriver.Redundancy.RecoveryProcess: the take-any registers only gain bits here; when hardware takes them back is not part of this model.
- RecoveryDriver.Bypass.RecoveryNoFrameReceived: is the case with nothing between its two locked sections, which are methods of their own; `NoFrames.ReadReportsOutstanding` covers other steps between them.
- StartTime.SchedTable.WriteStartTimeExecute: does not model the work queue; each look is given the clock reading, and the cycle time is the same at every look of a run.
- Lookup tables and stream triggers (`sysfs_write_lookup_tables`): copying of patterns, masks and indexes only.
- Bit layouts of commands, apart from the five bits of a message buffer id: commands are records.
- Retry loop of `bypass_diag_update`, diagnostic timestamps and their correction, poll timers.
- File access, path names, configuration file, MAC addresses, logging and tracing.
- Creation and destruction of streams, modules and configurations, enable flags and device state.
- The YANG plugin (`ngn.acm-yang`) and the demo program.
