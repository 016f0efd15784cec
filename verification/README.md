# The run-mode debugger and AnalyzeTool's text cores, modelled and proved

The project models, in Dafny, the parts of a Symbian run-mode debugger where state is hardest to keep
straight, and two small cores of the AnalyzeTool command line.

- `CodeMemory`, `Breakpoints`, `BreakpointRuns`: the driver's breakpoint list and the break instructions it plants
  in code. `raw` is what memory holds; `plants` is what the kernel's code modifier remembers, for each planted
  address the bytes it replaced; `base` is what memory would hold with nothing planted, which those two determine
  (`CodeMemory.BaseIsDetermined`) and no call looks at.
- `MemoryView`, `MemoryRuns`: the memory the driver shows to a debug agent. The text of a state is memory where
  nothing is planted, and the bytes saved in the list where a breakpoint stands.
- `Stepping`, `StepRuns`, `StepTheorems`: stepping by a temporary breakpoint at the next instruction, the
  exception it raises, and what the driver then does, for one thread with a deterministic successor.
- `DebugChannel`: the same driver calls as they are written, with loops over fields changed in place, each
  method proved to do what the functions of the modules above say.
- `EventQueue`, `DebugAgents`, `AsyncProtocol`: an agent's ring of events, the rules for losing them, and the
  protocol between client, security server and driver that delivers them.
- `AttachMaps`, `ProcessTracking`, `AttachAgreement`: who debugs what, kept once in the security server and once
  in the kernel.
- `Listing`: variable-length records packed into a buffer of bounded size, and the client's walk over them.
- `MmpEdit`: the changes AnalyzeTool makes to an mmp file, and their removal.
- `LeakAttribution`, `LeakHistory`: which loaded module each memory leak of a data file is charged to, as the parser
  keeps it and as the lines of the file alone say.
- `Words`, `StepDecoder`: the closed forms with which the stepper predicts the next program counter, against
  the ARM ARM (DDI 0406A).

Where the program changes things step by step, the model is a class or a loop, proved against a function; what
the program promises is proved about the function.

## Where code and documentation differ

The model follows the code. Each difference but the last is proved, most with the exact condition under which it
shows.

- `rm_debug_api.h:355-361` and the comment on `QueueEvent` keep the last free slot of a full queue for a
  buffer-full marker. As built the test for room is "any slot free" (`d_debug_agent.inl`), so the marker is never
  written and a full queue drops events silently: `EventQueue.MarkerNeedsReserve`, `EventQueue.AsBuiltNeverMarks`; the
  documented limits would keep the promise: `EventQueue.DocumentedLimitsMark`.
- The comment on `ValidateMemoryInfoL` refuses a block whose end passes 0xffffffff. The code accepts one that
  ends exactly at 2^32; the driver's range test then wraps, and a read shows planted break instructions:
  `MemoryView.ValidateAccepts`, `MemoryView.ReadAtTopShowsRaw`.
  A write to such a block overwrites the breakpoints in it and saves nothing: `MemoryView.WriteAtTopUnplants`.
- A write under a planted breakpoint is saved in the list, but the code modifier is not told. Clearing the
  breakpoint, or the death of its thread, brings the bytes from before the write back, and a step off it executes
  them: `MemoryRuns.SetWriteClearLosesTheWrite`, `MemoryRuns.ClearKeepsTextIff`, `MemoryRuns.DeathKeepsTextIff`,
  `StepTheorems.StepRunsRecorded`.
- A clear that ignores a terminated thread drops the entry of a breakpoint at address 0 and leaves its code
  planted: `BreakpointRuns.ClearKeepsCountIff`.
- A breakpoint set at an address already planted saves the break instruction as the program's:
  `MemoryRuns.WhatSetSaves`, `MemoryRuns.SharedAddressHidesText`. A thread that stands on such an address cannot
  be stepped off it: `StepTheorems.SharedAddressIsRefused`.
- Stepping disables every breakpoint under the program counter, whatever its scope, and plants only the
  thread's own again: `StepTheorems.StepsKeepCodeIff`, `StepTheorems.StepKeepsCodeIff`.
- A resume with a breakpoint of another scope at the successor steps off that one too and does not plant it again:
  `StepTheorems.ResumeIsInvisibleIff`, `StepTheorems.ForeignSuccessorIsLost`,
  `StepTheorems.ResumeLosesForeignSuccessor`.
- A request for no steps steps on until one of the thread's own breakpoints stops it, because the count is lowered
  before it is tested: `StepTheorems.ZeroStepsRunOn`, `StepTheorems.ZeroStepsStopAtBreakpoint`.
- An instruction that targets itself under one of the thread's own breakpoints is never stopped:
  `StepTheorems.SelfTargetRunsAway`, `StepTheorems.StepStopsIff`.
- Clear-all takes a breakpoint at address 0 for an empty slot: `BreakpointRuns.ClearAllRestoresCode`.
- The overlap test compares signed ends, which is right for aligned addresses only:
  `BreakpointRuns.OverlapIsIntersection`, `BreakpointRuns.OverlapNeedsAlignment`.
- A cancel that finds its request already completed by an event loses the event:
  `AsyncProtocol.CancelLosesCompletedEvent`.
- The security server keeps a pair although the kernel refuses the length of its name, and a detach in other
  letter case leaves the event handler behind: `AttachAgreement.AttachAgreesIff`,
  `AttachAgreement.DetachLeavesNoHandlerIff`.
- The sweep over agents attached to all reads past the end of the shortened list:
  `ProcessTracking.SweepInRangeIff`.
- A module without a name is charged more than once for one leak: `LeakAttribution.ChargedOnceIff`.
- Edits repeated on an mmp file cost an empty line at its end each: `MmpEdit.RemoveUndoesManyEdits`. A removal drops
  the line after each end marker, whatever it holds: `MmpEdit.RemoveKeeps`, `MmpEdit.KeepsSolidLinesIff`. With start
  markers that have no end marker it drops the rest of the file, and reports success when their number is even:
  `MmpEdit.UnclosedIsDroppedIff`.
- The decoder compares the negative and overflow flags as the numbers 8 and 1, applies the condition operator of
  ADC, SBC and RSC to the whole sum, leaves out the halfword bit of a branch that changes to Thumb, and does not
  shift for a right shift written with amount zero: `StepDecoder.IsExecutedIff`, `StepDecoder.CarryResultIff`,
  `StepDecoder.ChangingTargetIff`, `StepDecoder.ImmediateShiftIff`.
- `priv_DoSetBreak` closes a thread handle that may be null (line 398); the model returns the error that was
  about to be returned.

## Model

| member | source | states |
|---|---|---|
| CodeMemory.PlantKeepsPatched | debugsrv/runmodedebug/rmdriver/src/d_rmd_breakpoints.cpp:563-582 | planting at a place equal to or apart from the planted ones leaves memory patched at exactly one place more, and remembers the bytes replaced there the first time |
| CodeMemory.RestoreKeepsPatched | debugsrv/runmodedebug/rmdriver/src/d_rmd_breakpoints.cpp:674-693 | putting the remembered bytes back leaves memory patched at exactly one place fewer |
| CodeMemory.PatchedDetermines | debugsrv/runmodedebug/rmdriver/src/d_rmd_breakpoints.cpp:563-582 | the planted places determine every byte of memory |
| CodeMemory.BaseIsDetermined | debugsrv/runmodedebug/rmdriver/src/d_rmd_breakpoints.cpp:1468-1485 | memory and what is remembered determine what restoring everything would leave |
| BreakpointRuns.OverlapIsIntersection | debugsrv/runmodedebug/rmdriver/src/d_rmd_breakpoints.cpp:133-164 | for all aligned addresses the signed overlap test holds if and only if the unsigned byte ranges share a byte |
| BreakpointRuns.OverlapNeedsAlignment | debugsrv/runmodedebug/rmdriver/src/d_rmd_breakpoints.cpp:133-164 | an unaligned address for which the test fails |
| BreakpointRuns.NextBreakFollowsOrder | debugsrv/runmodedebug/rmdriver/src/d_rmd_breakpoints.cpp:1770-1778 | the successor call goes from each entry to the next one in the list and ends after the last |
| BreakpointRuns.Walk | debugsrv/runmodedebug/rmdriver/src/d_rmd_breakpoints.cpp:1770-1778 | the repeated successor call ends, and visits every entry once, in id order |
| BreakpointRuns.SetShape | debugsrv/runmodedebug/rmdriver/src/d_rmd_breakpoints.cpp:316-454 | a set appends one live entry with the next id that holds what memory held, and plants it unless its address is planted; a refused set changes neither list nor memory |
| BreakpointRuns.SetIsAcceptedIff | debugsrv/runmodedebug/rmdriver/src/d_rmd_breakpoints.cpp:316-454 | a set is accepted if and only if the mode is ARM or Thumb, there is room, the address is aligned and mapped, the thread is live, and no user breakpoint sharing a byte either names a dead thread where one of its own or the new one's has to be looked up, or shares the scope |
| BreakpointRuns.RefusalError | debugsrv/runmodedebug/rmdriver/src/d_rmd_breakpoints.cpp:316-454 | the error of every refused set: of the first check that fails, and among the breakpoints of the first in the list that refuses |
| BreakpointRuns.ClearShape | debugsrv/runmodedebug/rmdriver/src/d_rmd_breakpoints.cpp:641-732 | a clear drops exactly the entry of that id, through a live handle or when told to ignore a terminated one, and restores code only through a live handle and when no other user breakpoint overlaps it |
| BreakpointRuns.ClearOutcome | debugsrv/runmodedebug/rmdriver/src/d_rmd_breakpoints.cpp:641-732 | a clear fails if and only if no entry has the id, or its thread has terminated and that is not to be ignored, each with its error; it leaves a temporary slot as empty as at the start and takes a user entry out |
| BreakpointRuns.ClearKeepsCountIff | debugsrv/runmodedebug/rmdriver/src/d_rmd_breakpoints.cpp:641-732 | a clear keeps the planting counted if and only if it does not drop, through a terminated thread, the last user breakpoint of a location |
| BreakpointRuns.ThreadDeathKeeps | debugsrv/runmodedebug/rmdriver/src/d_rmd_breakpoints.cpp:1644-1679 | when a thread dies its breakpoints go, from the back of the list, and every remaining entry keeps its live handle |
| BreakpointRuns.StepKeeps | debugsrv/runmodedebug/rmdriver/src/d_rmd_breakpoints.cpp:316-454 | every set, clear, thread start and thread death keeps the list and the scopes and, when ranges are equal or disjoint and nothing is left planted, the planting |
| BreakpointRuns.EveryRunKeepsListAndScopes | debugsrv/runmodedebug/rmdriver/src/d_rmd_breakpoints.cpp:316-454 | over every run of sets, clears, thread starts and thread deaths from the start of the driver, ids 0 to 9 stay first, ids stay strictly increasing, below the next id and never name another entry, the next id starts at 10 and grows by at most one a call, the list stays under a hundred, and no two user breakpoints whose bytes intersect share a scope |
| BreakpointRuns.PlantingIsReferenceCounted | debugsrv/runmodedebug/rmdriver/src/d_rmd_breakpoints.cpp:510-732 | over every such run with equal or disjoint ranges in which no clear leaves a location planted, memory is the original code patched exactly where some user breakpoint stands |
| BreakpointRuns.ClearAllLeavesOnlyAddressZero | debugsrv/runmodedebug/rmdriver/src/d_rmd_breakpoints.cpp:1361-1405 | clear-all unplants everything but address 0 |
| BreakpointRuns.ClearAllRestoresCode | debugsrv/runmodedebug/rmdriver/src/d_rmd_breakpoints.cpp:1361-1405 | clear-all leaves all code equal to the original if and only if no user breakpoint stands at address 0, short of the program holding the break instruction there |
| MemoryView.ValidateAccepts | debugsrv/runmodedebug/securityserver/src/c_security_svr_session.cpp:2478-2516 | a block passes the check if and only if it is non-empty, within the limit, word-aligned, little-endian 32-bit and ends at or below 2^32 |
| MemoryView.ValidateErrors | debugsrv/runmodedebug/securityserver/src/c_security_svr_session.cpp:2478-2516 | a refused block is not supported if and only if its size and range are right and its access size or byte order is not; everything else refused is an argument error |
| MemoryView.NoneStraddles | debugsrv/runmodedebug/securityserver/src/c_security_svr_session.cpp:2506-2515 | no breakpoint crosses the edge of a block that passes the check |
| MemoryView.AccessErrors | debugsrv/runmodedebug/rmdriver/src/rm_debug_kerneldriver.cpp:2257-2385 | a read and a write fail alike: if and only if part of the block is not mapped, and then nothing changes, or a breakpoint in it is of an unknown instruction set |
| MemoryView.ReadShowsText | debugsrv/runmodedebug/rmdriver/src/rm_debug_kerneldriver.cpp:2257-2312 | a read of an accepted block below 2^32 returns exactly the text |
| MemoryView.ReadAtTopShowsRaw | debugsrv/runmodedebug/rmdriver/src/rm_debug_kerneldriver.cpp:2286-2288 | a read of a block ending at 2^32 returns raw memory, so it shows the text if and only if every breakpoint in it replaced the very same bytes |
| MemoryView.WriteWritesText | debugsrv/runmodedebug/rmdriver/src/rm_debug_kerneldriver.cpp:2326-2385 | a write changes the text in the block and nowhere else, the breakpoints stay planted over it, and what the code modifier remembers stays as it was |
| MemoryView.WriteAtTopUnplants | debugsrv/runmodedebug/rmdriver/src/rm_debug_kerneldriver.cpp:2340-2380 | a write to a block ending at 2^32 saves and plants nothing: the breakpoints in it stay planted if and only if the data holds their break instructions, and the view is kept if and only if they also replaced the very same bytes |
| MemoryRuns.WhatSetSaves | debugsrv/runmodedebug/rmdriver/src/d_rmd_breakpoints.cpp:536-557 | a set saves the text if and only if its address is not planted already, short of the text holding the break instruction |
| MemoryRuns.SharedAddressHidesText | debugsrv/runmodedebug/rmdriver/src/rm_debug_kerneldriver.cpp:2280-2310 | with a second breakpoint at one address a read shows the break instruction for the text |
| MemoryRuns.ClearShowsRecorded | debugsrv/runmodedebug/rmdriver/src/d_rmd_breakpoints.cpp:674-693 | a clear leaves the text with the bytes the breakpoint's planting replaced where it stood |
| MemoryRuns.ClearKeepsTextIff | debugsrv/runmodedebug/rmdriver/src/d_rmd_breakpoints.cpp:641-732 | a clear leaves the text as it was if and only if it leaves no location planted and unplants no breakpoint whose place was written since it was planted |
| MemoryRuns.DeathShowsRecorded | debugsrv/runmodedebug/rmdriver/src/d_rmd_breakpoints.cpp:1644-1679 | a thread death leaves the text with the remembered bytes under each of its breakpoints, and elsewhere as it was |
| MemoryRuns.DeathKeepsTextIff | debugsrv/runmodedebug/rmdriver/src/d_rmd_breakpoints.cpp:1644-1679 | a thread death leaves the text as it was if and only if none of its breakpoints stands on bytes written since it was planted |
| MemoryRuns.SetWriteClearLosesTheWrite | debugsrv/runmodedebug/rmdriver/src/rm_debug_kerneldriver.cpp:2326-2385 | after set, write and clear of one place a read shows the written block if and only if the write left the bytes under the breakpoint as they were |
| MemoryRuns.PerformIsPlainIff | debugsrv/runmodedebug/rmdriver/src/rm_debug_kerneldriver.cpp:2257-2385 | a write or breakpoint call changes the text as a plain memory would if and only if it unplants no breakpoint whose place was written since it was planted |
| MemoryRuns.DriverShowsText | debugsrv/runmodedebug/rmdriver/src/rm_debug_kerneldriver.cpp:2257-2385 | over every run of writes and breakpoint calls from the start of the driver, reads return the text that the writes made and the clears and deaths put back |
| MemoryRuns.DriverIsPlainMemory | debugsrv/runmodedebug/rmdriver/src/rm_debug_kerneldriver.cpp:2257-2385 | over every such run that loses no write, reads return what a memory that knows only the writes would return |
| MemoryRuns.ReadAfterWrite | debugsrv/runmodedebug/rmdriver/src/rm_debug_kerneldriver.cpp:2257-2385 | a block reads back as written, and every other accepted block as before |
| StepRuns.StepStarts | debugsrv/runmodedebug/rmdriver/src/d_rmd_stepping.cpp:1773-1882 | starting a step uncovers the instruction under the program counter and makes the next one stop the thread |
| StepRuns.StoppedStands | debugsrv/runmodedebug/rmdriver/src/rm_debug_kerneldriver.cpp:1384-1443 | after the stop no temporary breakpoint is left, the thread's own breakpoints are planted, and it can be stepped again, also where breakpoints of other scopes were lost |
| StepRuns.StoppedIsSettled | debugsrv/runmodedebug/rmdriver/src/rm_debug_kerneldriver.cpp:1384-1443 | with none of another scope underneath, the user breakpoints are planted as before |
| StepTheorems.HitIsReported | debugsrv/runmodedebug/rmdriver/src/rm_debug_kerneldriver.cpp:1373-1468 | a thread that runs into a break instruction outside a step is suspended there and nothing else changes but one event: a process break point, a thread break point, or an exception where it has no breakpoint of its own |
| StepTheorems.StepsStopWhereAsked | debugsrv/runmodedebug/rmdriver/src/rm_debug_kerneldriver.cpp:1373-1468 | a request for n steps ends with the thread suspended once at the n-th successor, or the first earlier one with a user breakpoint of its scope, exactly one event raised, a process break point if a breakpoint of the process stopped it and a thread one otherwise, temporaries free, and planted exactly what was, without the breakpoints of other scopes stepped off, and with any at the stop |
| StepTheorems.StepsKeepCodeIff | debugsrv/runmodedebug/rmdriver/src/d_rmd_breakpoints.cpp:1454-1598 | the code is as before n steps if and only if no breakpoint of another scope stands under an instruction stepped over, other than where the thread stops |
| StepTheorems.ZeroStepsRunOn | debugsrv/runmodedebug/rmdriver/src/rm_debug_kerneldriver.cpp:1409-1436 | a request for no steps, on a path clear of the thread's own breakpoints, is still running and has raised nothing after any number of instructions |
| StepTheorems.ZeroStepsStopAtBreakpoint | debugsrv/runmodedebug/rmdriver/src/rm_debug_kerneldriver.cpp:1409-1436 | it stops at the first user breakpoint of the thread's own, with that breakpoint's event |
| StepTheorems.ResumeIsInvisible | debugsrv/runmodedebug/rmdriver/src/rm_debug_kerneldriver.cpp:2165-2240 | resuming off a breakpoint of its own takes one hidden step: no event, nothing left behind, suspension balanced, unless the successor holds a user breakpoint of its own, where it stops with the event of that breakpoint's kind |
| StepTheorems.ResumeIsInvisibleIff | debugsrv/runmodedebug/rmdriver/src/rm_debug_kerneldriver.cpp:2165-2240 | over ordinary code a resume off a user breakpoint is one hidden step that leaves the code as before if and only if no breakpoint of another scope stands at the program counter or its successor, and the instruction does not target itself |
| StepTheorems.ForeignSuccessorIsLost | debugsrv/runmodedebug/rmdriver/src/rm_debug_kerneldriver.cpp:1409-1436 | with a breakpoint of another scope at the successor, the resume takes a second hidden step off it and leaves it unplanted |
| StepTheorems.ResumeLosesForeignSuccessor | debugsrv/runmodedebug/rmdriver/src/rm_debug_kerneldriver.cpp:1409-1436 | a thread at 8 and another one's breakpoint at 12: the resume is seen, and the breakpoint at 12 is gone |
| StepTheorems.StepKeepsCodeIff | debugsrv/runmodedebug/rmdriver/src/d_rmd_breakpoints.cpp:1454-1598 | the code is as before one step if and only if no breakpoint of another scope was under the program counter, or the instruction targets itself |
| StepTheorems.StepRunsRecorded | debugsrv/runmodedebug/rmdriver/src/d_rmd_breakpoints.cpp:1468-1485 | a step off a breakpoint executes the bytes its planting replaced, which are those a read shows if and only if the place was not written since |
| StepTheorems.SharedAddressIsRefused | debugsrv/runmodedebug/rmdriver/src/d_rmd_breakpoints.cpp:1454-1508 | where breakpoints of two scopes share the address under the program counter, a step is refused, the thread stays suspended and the address is left unplanted |
| StepTheorems.RefusedStepIsReported | debugsrv/runmodedebug/rmdriver/src/rm_debug_kerneldriver.cpp:1417-1443 | refused in the middle of a request, such a step leaves the thread suspended and raises the event |
| StepTheorems.StepNeedsLiveThread | debugsrv/runmodedebug/rmdriver/src/d_rmd_breakpoints.cpp:1454-1508 | a step off a breakpoint that no thread is left to act through is refused, and the thread stays suspended |
| StepTheorems.StepNeedsSlot | debugsrv/runmodedebug/rmdriver/src/d_rmd_stepping.cpp:1838-1882 | so is a step without a free temporary slot that no breakpoint of the thread's own would end |
| StepTheorems.ReplantingStopsAtDeadThread | debugsrv/runmodedebug/rmdriver/src/d_rmd_breakpoints.cpp:1555-1598 | planting again ends at the first waiting breakpoint whose thread is gone: its mark is taken off, and the rest stay unplanted |
| StepTheorems.TakesBackOne | debugsrv/runmodedebug/rmdriver/src/rm_debug_kerneldriver.cpp:2165-2240 | a step or resume takes back one suspension unless it is refused, and touches breakpoints and code only |
| StepTheorems.SelfTargetRunsAway | debugsrv/runmodedebug/rmdriver/src/d_rmd_stepping.cpp:1813-1833 | a step or the hidden step of a resume, of an instruction that targets itself under the thread's own breakpoint, never stops, however long it runs |
| StepTheorems.StepStopsIff | debugsrv/runmodedebug/rmdriver/src/d_rmd_stepping.cpp:1773-1882 | a step stops the thread if and only if the instruction is not one that targets itself with a breakpoint of the thread's own on it |
| DebugChannel.Channel.constructor | debugsrv/runmodedebug/rmdriver/src/d_rmd_breakpoints.cpp:200-218 | ten empty temporary slots with ids 0 to 9, and nothing planted |
| DebugChannel.Channel.EnableBreak | debugsrv/runmodedebug/rmdriver/src/d_rmd_breakpoints.cpp:510-592 | the in-place call does what `Breakpoints.Enable` says |
| DebugChannel.Channel.SetBreak | debugsrv/runmodedebug/rmdriver/src/d_rmd_breakpoints.cpp:316-454 | the in-place call does what `Breakpoints.SetBreak` says, and returns the id of the appended entry |
| DebugChannel.Channel.ClearBreak | debugsrv/runmodedebug/rmdriver/src/d_rmd_breakpoints.cpp:641-732 | the in-place call does what `Breakpoints.ClearBreak` says |
| DebugChannel.Channel.RemoveThreadBreaks | debugsrv/runmodedebug/rmdriver/src/d_rmd_breakpoints.cpp:1644-1679 | the loop from the back does what `Breakpoints.RemoveThreadBreaks` says |
| DebugChannel.Channel.ClearAll | debugsrv/runmodedebug/rmdriver/src/d_rmd_breakpoints.cpp:1361-1405 | the loop does what `Breakpoints.ClearAll` says |
| DebugChannel.Channel.DisableBreakAt | debugsrv/runmodedebug/rmdriver/src/d_rmd_breakpoints.cpp:1454-1508 | the loop does what `Breakpoints.DisableAt` says, stopping at its first error |
| DebugChannel.Channel.EnableDisabledBreaks | debugsrv/runmodedebug/rmdriver/src/d_rmd_breakpoints.cpp:1555-1598 | the loop does what `Breakpoints.EnableDisabled` says, stopping at its first error |
| DebugChannel.Channel.ReadMemory | debugsrv/runmodedebug/rmdriver/src/rm_debug_kerneldriver.cpp:2257-2312 | the loop overlays the saved instructions as `MemoryView.ReadMemory` says |
| DebugChannel.Channel.WriteMemory | debugsrv/runmodedebug/rmdriver/src/rm_debug_kerneldriver.cpp:2326-2385 | the loop saves and plants again as `MemoryView.WriteMemory` says |
| DebugChannel.Channel.PlantNext | debugsrv/runmodedebug/rmdriver/src/d_rmd_stepping.cpp:1813-1878 | the two loops find a user breakpoint, else a free slot, as `Stepping.PlantStop` says |
| DebugChannel.Channel.DoStepRange | debugsrv/runmodedebug/rmdriver/src/rm_debug_kerneldriver.cpp:2206-2240 | the call does what `Stepping.StepRange` says |
| DebugChannel.Channel.DoResumeThread | debugsrv/runmodedebug/rmdriver/src/rm_debug_kerneldriver.cpp:2165-2201 | the call does what `Stepping.ResumeThread` says |
| DebugChannel.Channel.HandleBreakpoint | debugsrv/runmodedebug/rmdriver/src/rm_debug_kerneldriver.cpp:1373-1468 | the handler does what `Stepping.HandleBreak` says |
| EventQueue.FirstInFirstOut | debugsrv/runmodedebug/rmdriver/src/d_debug_agent.cpp:199-215 | over every run, the events taken followed by those queued are those inserted, in order |
| EventQueue.TraceLossIsAnnouncedOnce | debugsrv/runmodedebug/rmdriver/src/d_debug_agent.cpp:420-454 | over every run, since an event was last stored at or below the critical level, exactly one traces-lost marker was inserted if a trace was left out while slots were free, and none otherwise |
| EventQueue.FirstLostTraceIsMarked | debugsrv/runmodedebug/rmdriver/src/d_debug_agent.cpp:432-454 | the first trace left out makes the marker the newest entry of the queue, every later one changes nothing |
| EventQueue.WhenItIsStored | debugsrv/runmodedebug/rmdriver/src/d_debug_agent.cpp:405-466 | an event is queued itself if and only if the queue is below critical, or it is no trace and more slots are free than are reserved |
| EventQueue.MarkerNeedsReserve | debugsrv/runmodedebug/rmdriver/src/d_debug_agent.cpp:457-465 | in every reachable state a full queue ends in the buffer-full marker, if and only if a slot is reserved for it |
| EventQueue.LostEventIsMarked | debugsrv/runmodedebug/rmdriver/src/d_debug_agent.cpp:457-465 | an event left out for the reserve makes the buffer-full marker the newest entry, and one that finds no slot changes nothing |
| EventQueue.AsBuiltNeverMarks | debugsrv/runmodedebug/rmdriver/inc/d_debug_agent.inl:41-44 | with the test for room as built, no run ever inserts the buffer-full marker, and a full queue ignores whatever is put |
| EventQueue.DocumentedLimitsMark | debugsrv/runmodedebug/runmodedebug_plat/run_mode_debug_api/inc/rm_debug_api.h:355-361 | with the limits as documented a full queue always ends in the buffer-full marker, and with those as built some run ends without |
| DebugAgents.DebugAgent.Store | debugsrv/runmodedebug/rmdriver/inc/d_debug_agent.inl:58-63 | filling the slot at the head appends to the contents from the tail on |
| DebugAgents.DebugAgent.RemoveOldest | debugsrv/runmodedebug/rmdriver/inc/d_debug_agent.inl:68-73 | emptying the slot at the tail removes the oldest event, and every unoccupied slot stays marked empty |
| DebugAgents.DebugAgent.QueueEvent | debugsrv/runmodedebug/rmdriver/src/d_debug_agent.cpp:405-466 | the ring refines the queue, the slot at the head is empty as asserted, and the last branch is never reached |
| DebugAgents.DebugAgent.GetEvent | debugsrv/runmodedebug/rmdriver/src/d_debug_agent.cpp:166-218 | the ring does what `DebugAgents.AfterGet` says |
| DebugAgents.DebugAgent.CancelGetEvent | debugsrv/runmodedebug/rmdriver/src/d_debug_agent.cpp:224-231 | the ring does what `DebugAgents.AfterCancel` says |
| DebugAgents.DebugAgent.NotifyEvent | debugsrv/runmodedebug/rmdriver/src/d_debug_agent.cpp:238-387 | the ring does what `DebugAgents.AfterNotify` says, and reports whether the thread is suspended |
| DebugAgents.DyingNeverSuspends | debugsrv/runmodedebug/rmdriver/src/d_debug_agent.cpp:252-285 | a dying agent stays dying, suspends no thread and queues no suspended event |
| DebugAgents.NotifyOutcome | debugsrv/runmodedebug/rmdriver/src/d_debug_agent.cpp:238-387 | for every agent and event: the thread is suspended if and only if the agent asked for it, lives on and the event is no breakpoint; the event is queued, with the action asked for, if and only if the agent is told of it, and then ends a waiting request with the oldest event; and the agent starts dying if and only if the event ends its process |
| AsyncProtocol.NextKeepsWaiting | debugsrv/runmodedebug/rmdriver/src/d_debug_agent.cpp:166-231 | with the active object as sole caller the balance is 0 or 1, and 1 only while the queue is empty or its oldest event cannot be written out |
| AsyncProtocol.NextKeepsAnsweredOnce | debugsrv/runmodedebug/securityserver/src/c_security_svr_async.cpp:73-145 | every client message is answered exactly once, except the one being served |
| AsyncProtocol.RecordKeepsBalanced | debugsrv/runmodedebug/securityserver/src/c_security_svr_async.cpp:106-145 | successes answered are the requests passed on complete, cancel codes the requests cancelled; those accepted are these two, the completed one not passed on and the balance; and every other message was answered in-use |
| AsyncProtocol.ProtocolIsSafe | debugsrv/runmodedebug/securityserver/src/c_security_svr_async.cpp:73-145 | the three above, over every run of requests, events, completions, cancels and action changes |
| AsyncProtocol.EventsAreAccountedFor | debugsrv/runmodedebug/rmdriver/src/d_debug_agent.cpp:331-372 | over every run as built, each event queued is queued, in flight, received or lost to a cancel, in the order queued, and a request waits only while the queue is empty |
| AsyncProtocol.CancelLosesCompletedEvent | debugsrv/runmodedebug/securityserver/src/c_security_svr_async.cpp:106-112 | a step loses an event if and only if it cancels a request that an event has completed |
| AsyncProtocol.EveryEventIsReceived | debugsrv/runmodedebug/securityserver/src/c_security_svr_async.cpp:73-145 | without such a cancel the client receives every event queued, once and in order, up to those in flight or queued |
| AsyncProtocol.WhenARequestWaits | debugsrv/runmodedebug/rmdriver/src/d_driver_event_info.cpp:110-150 | a request of an idle server waits if and only if the queue is empty or its oldest event is of one of the three kinds without a case in the writing routine |
| AsyncProtocol.MarkerCompletesEmpty | debugsrv/runmodedebug/rmdriver/src/d_debug_agent.cpp:331-372 | a request waiting behind an event that cannot be written out is completed by the next event with success and no event, and the one it waited behind is lost |
| AsyncProtocol.AgentDoesAsTold | debugsrv/runmodedebug/rmdriver/src/d_debug_agent.cpp:128-141 | over every run, the action for each kind of event is the last one set, and the agent is dying if and only if an event ended its process |
| AsyncProtocol.SecuritySvrAsync.GetEvent | debugsrv/runmodedebug/securityserver/src/c_security_svr_async.cpp:129-145 | the active object accepts when idle and answers in-use otherwise |
| AsyncProtocol.SecuritySvrAsync.RunOnceComplete | debugsrv/runmodedebug/securityserver/src/c_security_svr_async.cpp:73-103 | the completed request is answered with its event, or its error |
| AsyncProtocol.SecuritySvrAsync.CancelRequest | debugsrv/runmodedebug/securityserver/src/c_security_svr_async.cpp:106-112 | a cancel ends the request in both layers and answers it once |
| AttachMaps.SameNameIff | debugsrv/runmodedebug/securityserver/src/c_process_pair.cpp:123-131 | two names compare equal if and only if they are as long and agree letter by letter up to case |
| AttachMaps.DebugServer.AttachProcess | debugsrv/runmodedebug/securityserver/src/c_security_svr_server.cpp:160-237 | the three loops decide and append as `AttachMaps.Attach` says |
| AttachMaps.DebugServer.DetachProcess | debugsrv/runmodedebug/securityserver/src/c_security_svr_server.cpp:248-274 | the first matching pair leaves its map, the active one first |
| AttachMaps.DebugServer.DetachAllProcesses | debugsrv/runmodedebug/securityserver/src/c_security_svr_server.cpp:283-306 | removing from the back leaves exactly the other agents' pairs |
| AttachMaps.DebugServer.IsActiveDebugger | debugsrv/runmodedebug/securityserver/src/c_security_svr_server.cpp:461-485 | yes if and only if the active map holds the pair, or the agent with the star |
| AttachMaps.DebugServer.IsDebugger | debugsrv/runmodedebug/securityserver/src/c_security_svr_server.cpp:523-537 | yes if and only if the agent is the active debugger or the passive map holds the pair |
| ProcessTracking.ProcessTracker.AttachProcess | debugsrv/runmodedebug/rmdriver/src/d_process_tracker.cpp:73-159 | the tracker does what `ProcessTracking.TrackerAttach` says |
| ProcessTracking.ProcessTracker.DetachProcess | debugsrv/runmodedebug/rmdriver/src/d_process_tracker.cpp:172-235 | the tracker does what `ProcessTracking.TrackerDetach` says |
| ProcessTracking.ProcessTracker.RemoveAgentFrom | debugsrv/runmodedebug/rmdriver/src/d_target_process.cpp:111-127 | the first occurrence of the agent leaves the process's list |
| ProcessTracking.ProcessTracker.DetachAgent | debugsrv/runmodedebug/rmdriver/src/d_process_tracker.cpp:243-283 | the three sweeps do what `ProcessTracking.TrackerDetachAgent` says |
| ProcessTracking.SweepInRangeIff | debugsrv/runmodedebug/rmdriver/src/d_process_tracker.cpp:271-280 | the last sweep as written stays in range if and only if the agent is not attached to all or is the last that is |
| ProcessTracking.TrackerAttachOutcome | debugsrv/runmodedebug/rmdriver/src/d_process_tracker.cpp:73-159 | an attach to the kernel fails if and only if the name is too short or long, or it is the second to all, each with its error; else the agent comes first in the list of the first process of the name, in a new one, or last of those attached to all |
| ProcessTracking.TrackerDetachOutcome | debugsrv/runmodedebug/rmdriver/src/d_process_tracker.cpp:172-235 | a detach fails if and only if the name is too short or long, the process is not tracked or the agent not attached to all; for a tracked process of other agents it succeeds and changes nothing |
| AttachAgreement.AttachOutcome | debugsrv/runmodedebug/securityserver/src/c_security_svr_server.cpp:160-237 | an attach is refused if and only if the agent has the name in either map, or an active one any agent has actively; otherwise exactly the map asked for gains the pair, at its end |
| AttachAgreement.DetachOutcome | debugsrv/runmodedebug/securityserver/src/c_security_svr_server.cpp:248-274 | a detach takes the first matching pair out of the active map, or of the passive one when the active has none, and fails if and only if neither has one |
| AttachAgreement.AttachKeepsAgreement | debugsrv/runmodedebug/securityserver/src/c_security_svr_session.cpp:1137-1161 | an attach with a name the kernel accepts keeps both layers in agreement, and succeeds when the server's does |
| AttachAgreement.DetachKeepsAgreement | debugsrv/runmodedebug/securityserver/src/c_security_svr_session.cpp:1551-1576 | a detach keeps agreement, and succeeds if and only if the pair was recorded |
| AttachAgreement.CloseKeepsAgreement | debugsrv/runmodedebug/securityserver/src/c_security_svr_session.cpp:98-116 | closing keeps agreement and leaves nothing of the agent |
| AttachAgreement.DetachAllDrops | debugsrv/runmodedebug/securityserver/src/c_security_svr_server.cpp:283-306 | exactly one agent's pairs go |
| AttachAgreement.LayersAgreeOverEveryRun | debugsrv/runmodedebug/securityserver/src/c_security_svr_session.cpp:1137-1220 | over every run the kernel tracks exactly the pairs of the server's maps, each once, process names distinct and with agents, one active debugger for every name but the star |
| AttachAgreement.AttachAgreesIff | debugsrv/runmodedebug/rmdriver/src/d_process_tracker.cpp:78-82 | after an attach the server accepts, the layers agree if and only if the name has 1 to 255 characters |
| AttachAgreement.DetachAllAgreesIff | debugsrv/runmodedebug/securityserver/src/c_security_svr_session.cpp:1594-1625 | after detaching from all the layers agree if and only if the handler for the star was there or nothing was attached to all |
| AttachAgreement.DetachLeavesNoHandlerIff | debugsrv/runmodedebug/securityserver/src/c_security_svr_session.cpp:1560-1570 | after a detach the handlers match the attachments if and only if the name was spelled as it was attached |
| Listing.ListBuffer.AppendRecord | debugsrv/runmodedebug/rmdriver/src/d_list_manager.cpp:176-231 | a record is always counted, and written at the end if and only if everything counted fits |
| Listing.ListBuffer.PutName | debugsrv/runmodedebug/rmdriver/src/d_list_manager.cpp:341-367 | every character is copied widened to two bytes, and nothing else changes |
| Listing.ListBuffer.List | debugsrv/runmodedebug/rmdriver/src/d_list_manager.cpp:120-160 | the reported size is the sum of the aligned sizes, the buffer decodes to the longest fitting run of leading records, and the three overflow tests agree |
| Listing.AlignSum | debugsrv/runmodedebug/rmdriver/src/d_list_manager.cpp:667 | aligning each size and aligning the running sum count the same, so the library listing counts like the others |
| Listing.DecodePacked | debugsrv/runmodedebug/runmodedebug_plat/run_mode_debug_api/inc/rm_debug_api.h:1205-1225 | round trip: the client's walk over packed records returns exactly the records |
| Listing.ListingIsReadBack | debugsrv/runmodedebug/runmodedebug_plat/run_mode_debug_api/inc/rm_debug_api.h:905-1306 | each of the five listings is read back entry by entry, from as many bytes as the entries report by their declared sizes |
| Listing.NamesStandWhereDeclared | debugsrv/runmodedebug/runmodedebug_plat/run_mode_debug_api/inc/rm_debug_api.h:905-1306 | in each of the five listings every name's length and characters stand at the offsets the entry declares, least significant byte first, the second name right after the first |
| Listing.FittingIsLongest | debugsrv/runmodedebug/securityserver/src/c_security_svr_session.cpp:2348-2372 | the records kept fit, one more would not, and nothing is kept after the first that does not fit |
| Listing.RetryReturnsAll | debugsrv/runmodedebug/rmdriver/src/d_list_manager.cpp:627-697 | a buffer holds every record if and only if it has at least the reported size |
| MmpEdit.Mmp.EditMmpFile | perfsrv/analyzetool/commandlineengine/src/CATMmp.cpp:79-137 | the loops append what `MmpEdit.Edit` says, and the file is then an edit of what it was in the sense of `MmpEdit.EditWrites`, for a library exactly when the type is dll or lib |
| MmpEdit.EditWrites | perfsrv/analyzetool/commandlineengine/src/CATMmp.cpp:102-132 | for every text, the lines after an edit are those before it, then between the two marks the compiler option, and before that, if and only if the target is no library, the source path, the source with the id and the two libraries, in that order |
| MmpEdit.Mmp.SearchStart | perfsrv/analyzetool/commandlineengine/src/CATMmp.cpp:35-73 | yes if and only if some line read holds the start marker |
| MmpEdit.EditedIff | perfsrv/analyzetool/commandlineengine/src/CATMmp.cpp:35-73 | a file of readable lines counts as edited if and only if the start marker stands anywhere in one of them |
| MmpEdit.LongLineEndsReading | perfsrv/analyzetool/commandlineengine/src/CATMmp.cpp:238-262 | a line is read whole if and only if it has at most 16383 characters; a longer one is cut there and ends the reading |
| MmpEdit.Mmp.RemoveFrom | perfsrv/analyzetool/commandlineengine/src/CATMmp.cpp:201-306 | the line loop computes what `MmpEdit.Remove` says |
| MmpEdit.Mmp.BackupMmpFile | perfsrv/analyzetool/commandlineengine/src/CATMmp.cpp:148-174 | the backup becomes the text, without the changes if it had them |
| MmpEdit.Mmp.VerifyAndRecover | perfsrv/analyzetool/commandlineengine/src/CATMmp.cpp:318-339 | the file becomes what `MmpEdit.Recovered` says |
| MmpEdit.RemoveAfterEdits | perfsrv/analyzetool/commandlineengine/src/CATMmp.cpp:201-306 | removing after any number of edits takes out exactly the changes and up to as many empty last lines |
| MmpEdit.RemoveUndoesEdit | perfsrv/analyzetool/commandlineengine/src/CATMmp.cpp:201-306 | for every clean text, removing after one edit returns it, completed by a newline if its last line lacks one |
| MmpEdit.RemoveUndoesManyEdits | perfsrv/analyzetool/commandlineengine/src/CATMmp.cpp:201-306 | two or more edits come back if and only if the text ends in a newline after a non-empty line |
| MmpEdit.LinesJoin | perfsrv/analyzetool/commandlineengine/src/CATMmp.cpp:238-262 | every text is its lines with a newline between each two, so what is said below of joined lines is said of every file |
| MmpEdit.RemoveKeeps | perfsrv/analyzetool/commandlineengine/src/CATMmp.cpp:238-306 | where every start line has its end line, a removal succeeds with the lines outside the changes, without an empty line before each section and the line after it |
| MmpEdit.KeepsEveryLineIff | perfsrv/analyzetool/commandlineengine/src/CATMmp.cpp:238-306 | every line outside the changes is kept if and only if there is at most one section, after a line that is not empty and with nothing after it |
| MmpEdit.KeepsSolidLinesIff | perfsrv/analyzetool/commandlineengine/src/CATMmp.cpp:238-306 | every line outside the changes that is not empty is kept if and only if each end line is followed by an empty line or none |
| MmpEdit.UnclosedIsDroppedIff | perfsrv/analyzetool/commandlineengine/src/CATMmp.cpp:238-306 | with start lines that have no end line the rest of the file is dropped and success reported if and only if their number is even; otherwise the file is unchanged |
| MmpEdit.RemoveLeavesNoStart | perfsrv/analyzetool/commandlineengine/src/CATMmp.cpp:238-306 | whatever the text, a removal that succeeds leaves no start marker |
| MmpEdit.RecoveryLeavesNoStart | perfsrv/analyzetool/commandlineengine/src/CATMmp.cpp:318-339 | after a recovery that succeeds no start marker is left; an unedited file is not touched, an unedited backup takes the place of an edited file, and a recovery fails if and only if it has to remove and that fails |
| LeakAttribution.ListsStayParallel | perfsrv/analyzetool/commandlineengine/src/CATDatParser.cpp:583-704 | over every data file the two module lists agree in length and every field but the leak count |
| LeakAttribution.ChargedOnceIff | perfsrv/analyzetool/commandlineengine/src/CATDatParser.cpp:943-964 | a leak that hits is charged once, to the first module hit, if and only if that module has a name or nothing else is hit |
| LeakAttribution.CountsAddUp | perfsrv/analyzetool/commandlineengine/src/CATDatParser.cpp:910-965 | with named modules the counts add up to the leaks whose stack hits a module, and never exceed the leak totals, for the run and for the subtest |
| LeakAttribution.EachModuleCountsItsLeaks | perfsrv/analyzetool/commandlineengine/src/CATDatParser.cpp:943-964 | the count under a name is the number of leaks whose first hit was the module of that name |
| LeakAttribution.ReportedCountsAreRight | perfsrv/analyzetool/commandlineengine/src/CATDatParser.cpp:943-964 | so is every count in the run's list |
| LeakHistory.UnloadIsRecorded | perfsrv/analyzetool/commandlineengine/src/CATDatParser.cpp:658-704 | an unload with a time, from version 2 on, sets the unload time of the first module of the name in both lists and changes nothing else; any other unload changes nothing |
| LeakHistory.ListsFollowLines | perfsrv/analyzetool/commandlineengine/src/CATDatParser.cpp:333-704 | over every data file each list holds one module for each name loaded since the process start, in the order of the first lines to load them, with that line's bounds and load time and the last unload time given after it |
| LeakHistory.LeakIsCharged | perfsrv/analyzetool/commandlineengine/src/CATDatParser.cpp:910-965 | told from the lines alone: a leak is charged to a name if and only if its loading line is the first to cover the first covered address of the stack, within its bounds, loaded by the leak's time and not last unloaded before it; to the subtest's list while one is going on, to the run's otherwise |
| LeakHistory.CountsFollowLines | perfsrv/analyzetool/commandlineengine/src/CATDatParser.cpp:910-965 | over every data file with named modules, the count under each name in either list is the number of leaks that are its fault by the lines alone |
| LeakHistory.ReportsFollowLines | perfsrv/analyzetool/commandlineengine/src/CATDatParser.cpp:488-508 | so is every count reported |
| LeakHistory.TotalsFollowLines | perfsrv/analyzetool/commandlineengine/src/CATDatParser.cpp:910-965 | the totals are the leaks outside subtests since the process start, and all leaks since the start of a process or subtest |
| LeakAttribution.DatParser.ParseDllLoad | perfsrv/analyzetool/commandlineengine/src/CATDatParser.cpp:583-650 | a module is added to each list unless its name is there |
| LeakAttribution.DatParser.ParseDllUnload | perfsrv/analyzetool/commandlineengine/src/CATDatParser.cpp:658-704 | the first module of the name gets the time, in files that carry times |
| LeakAttribution.DatParser.ParseTestStart | perfsrv/analyzetool/commandlineengine/src/CATDatParser.cpp:737-748 | the subtest's counts and leak number start from zero |
| LeakAttribution.DatParser.FindSetModuleName | perfsrv/analyzetool/commandlineengine/src/CATMemoryAddress.cpp:57-100 | the first module that holds the address and was loaded at the time |
| LeakAttribution.DatParser.ParseMemLeak | perfsrv/analyzetool/commandlineengine/src/CATDatParser.cpp:910-965 | the index found in one list is in range in the other, and the loop charges as `LeakAttribution.Charges` says |
| Words.Bitcount | debugsrv/runmodedebug/rmdriver/inc/rm_debug_driver.h:151-161 | clearing the lowest bit until none is left counts the set bits |
| StepDecoder.BlockAddressIsTransferred | debugsrv/runmodedebug/rmdriver/src/d_rmd_stepping.cpp:661-681 | in all four modes of load-multiple the closed form is the word a register-by-register transfer loads register 15 from |
| StepDecoder.PopAddressIsTransferred | debugsrv/runmodedebug/rmdriver/src/d_rmd_stepping.cpp:1394-1409 | the same for Thumb POP |
| StepDecoder.ConditionalTargetIsRelative | debugsrv/runmodedebug/rmdriver/src/d_rmd_stepping.cpp:1438-1449 | for all inputs the target is the address plus 4 plus twice the signed 8-bit offset, modulo 2^32 |
| StepDecoder.ThumbTargetIsRelative | debugsrv/runmodedebug/rmdriver/src/d_rmd_stepping.cpp:1455-1465 | the same for the 11-bit offset |
| StepDecoder.ArmTargetIsRelative | debugsrv/runmodedebug/rmdriver/inc/d_rmd_stepping.inl:229-245 | the target is the address plus 8 plus four times the signed 24-bit offset, modulo 2^32 |
| StepDecoder.ChangingTargetIff | debugsrv/runmodedebug/rmdriver/src/d_rmd_stepping.cpp:706-714 | the target of a branch that changes to Thumb is right if and only if bit 24 is clear |
| StepDecoder.IsExecutedIff | debugsrv/runmodedebug/rmdriver/src/d_rmd_stepping.cpp:56-101 | the condition test is the architecture's, unless the negative and overflow flags are both set and the condition compares them |
| StepDecoder.ImmediateShiftIff | debugsrv/runmodedebug/rmdriver/src/d_rmd_stepping.cpp:1684-1719 | every immediate shift is the architecture's, except a right shift by amount zero of a value it would change |
| StepDecoder.ArithmeticShiftFloors | debugsrv/runmodedebug/rmdriver/src/d_rmd_stepping.cpp:1697-1702 | the arithmetic shift is division of the signed value by a power of two, rounding down |
| StepDecoder.RotationRotates | debugsrv/runmodedebug/rmdriver/src/d_rmd_stepping.cpp:1704-1716 | the rotation is as many rotations by one place |
| StepDecoder.CarryResultIff | debugsrv/runmodedebug/rmdriver/src/d_rmd_stepping.cpp:189-206 | the result with carry is right if and only if the plain result is 0, or 1 with the carry clear, as the operation demands |

## Left out

- The kernel's code modifier: taken as a contract. Planting writes the break instruction, remembers the bytes it
  replaces and may be repeated; restoring puts those bytes back, whatever was written since, or reports not-found.
- The kernel gives a new thread an id that no thread and no breakpoint had before, and a breakpoint of a process
  lives and dies with the process's first thread, as the driver takes it to.
- Threads other than the stepping one run no code while it steps, and the successor of an instruction is a
  function of its address; page faults, shadow pages and exceptions inside the driver are not modelled.
- Modify-breakpoint calls, library invalidation and removal of a process's breakpoints by address range: they
  leave entries in the list whose code is not planted.
- Breakpoint ids, sizes, step counts and listing lengths are unbounded, so a request for no steps does not end after
  2^32 instructions as a 32-bit count would; 64-bit ids are not truncated to 32 bits as clear-all does.
- Memory copied past the end of a block by a breakpoint that straddles it: excluded for accepted blocks by
  `MemoryView.NoneStraddles`, and not modelled for others.
- Allocation failure, handle exhaustion, a client request that cannot be attached, and locks: each public call is
  one atomic step.
- A reply the client's buffer does not accept, and requests made by a second caller of the same agent.
- Capability and executable-header checks before an attach, and narrowing of 16-bit names to 8 bits.
- `DTargetProcess` objects are values in the tracker's list, so aliasing between them is not captured.
- Padding bytes of listing records, and the walks over kernel containers, file systems and ROM that produce the records.
- File errors, write protection and carriage returns around mmp files; lines are cut at 16383 characters as the code does.
- A removal that has to run on an mmp file is undefined, and not modelled, where a start marker is reached with no line
  collected before it.
- The text of data-file lines, report output, XML, pinpointing to source lines, and handle leaks.
- The Thumb-2 decodings, register-specified shifts, and the data-processing and load cases of the ARM decoder that
  add only table rows.
- ProcessTracking.ProcessTracker.DetachAgent: bounds its last sweep by the current length of the list, because the
  loop as written can leave it; `ProcessTracking.SweepInRangeIff` says exactly when.
- StepTheorems.StepsStopWhereAsked: assumes ordinary code on the path, one user breakpoint to an address, and no
  instruction that targets itself under the thread's own breakpoint; `StepTheorems.SelfTargetRunsAway` and
  `StepTheorems.SharedAddressIsRefused` say what happens there.
