# Neko Project on two cores: a verified model

The repository is a PC-98 emulator core (Neko Project II kai) running on an ESP32. This project models
its self-contained algorithms and state machines in Dafny 4.11 and proves what they are for.
`dafny verify dfyconfig.toml` checks all of it.

Where the source updates state in place the model does so too: a class or an array with the source's
fields, loops with invariants, and contracts that tie each method to a function on values. The laws are
lemmas about those functions, and the methods inherit them.

| part | modules | the program's code |
|---|---|---|
| event scheduler | `EventQueue` (operations on values), `Scheduler` (the arrays and counters), `EventProofs`, `EventDispatch`, `EventRuns`, `EventPeriods`, `EventExamples` | `nevent.c`, the counters in `i286c/i286c_mn.c` |
| LZ compressor and decoder | `LzFormat`, `LzPack` (the two programs), `LzProofs`, `LzStream` (the stream as tokens), `LzReader`, `Powers` | `accessories/lzxpack.c`, `common/bmpdata.c` |
| framebuffer hand-off | `Handoff` | `main/lcd_st7789.cpp`, the loop of `main/main.cpp` |
| SHA-1 | `Sha1Spec` (FIPS 180-4), `Sha1` (the streaming code), `Sha1Example`, `Sha1Vector` (two messages, computed) | `debugsnapshot.c` |
| state-save sections | `StatFormat` (the file on values), `StatSave` (the handle), `StatRoundTrip` | `statsave.c` |
| saving the scheduler | `EventSave`, `EventStat` | `statsave.c`, `statsave.tbl` |
| calendar | `Dates`, `DateProofs`, `Calendar` (updates in place) | `calendar.c`, `common/parts.c` |
| serial receive ring | `SerialLine` (queue and codes), `SerialShift` (shift codes and DEL), `SerialRing` (memory and handlers) | `bios/bios0c.c`, `bios/bios19.c` |
| audio drain | `AudioDrain` | `main/main.cpp` |
| shared | `Bytes`, `CInt` (C's arithmetic), `Chunks`, `Wrappers` | |

Assumptions: a scheduler callback is a finite list of `nevent_set`, `nevent_reset` and `nevent_forceexit`
calls; the two cores see each other's single accesses to `s_fb`, `s_blit_busy` and the notification in one
order; files, clocks, ports and `sound_pcmlock` are parameters, and allocation and file operations succeed.
The tables of `statsave.tbl` are any tables with distinct, positive numbers. CPU_BASECLOCK, CPU_REMCLOCK
and CPU_CLOCK are saved with the CPU state (`statsave.tbl:98`), not with the events.

## Where the code does not do what is expected of it

Each of these is proved with its exact condition.

- `SHA1PadMessage` tests the index after it has stored the 0x80 byte, so a message of 55 bytes modulo 64 gets
  a block more than FIPS 180-4 asks for, and only such a message (`Sha1.PaddingIsStandard`); its digest is then a
  wrong one, as 55 zero bytes show (`Sha1Example.DigestsDiffer`).
- An event can be dispatched late. `sti`, `pop ss` and `mov ss` put off the end of the CPU's slice by the instruction that
  is to follow (`i286c/i286c_mn.c:16-26`, 396, 1698, 2686-2703), possibly past the head of the ready list, and do so
  exactly if `EventRuns.InTime` fails (`EventRuns.DoKeepsIdle`). Still exactly the events due are dispatched, once each
  and in order (`EventDispatch.ProgressDispatches`), none of them later than by what was put off
  (`EventRuns.DelayBounds`), and no periodic event drifts (`EventPeriods.NoDrift`). There is no bound on what
  can be put off (`EventExamples.NoBoundOnDelay`; for k = 1, an event due at 3 comes at 5, put off by one `sti` that ends at 4).
- `nevent_changeclock`, called while the counters differ, can set the CPU to run past an event that is already
  overdue (`EventRuns.ChangeClockKeepsQueued`). Starting from a cleared scheduler this takes an end of a slice put off, a
  `nevent_set` with a negative eventclock, as in `EventExamples.OverdueHeadOutrun`, or a break of the other conditions
  of `EventRuns.Mannered`. In any case the ready list stays in order (`EventRuns.SessionKeepsSorted`) and the next
  `nevent_progress` restores the invariant (`EventRuns.SessionRecovers`).
- It scales a counter to the nearest clock except where the scaled value is negative and not exact: then to one clock
  more (`EventRuns.ScaledCounter`), since the half that is added for rounding does not suit C's division.
- A relative `nevent_set` of an event that is out of the list counts from the beginning of the current slice, not from
  when the event last fired, once CPU_CLOCK has moved (`EventPeriods.RearmedLate`, `EventExamples.SetAgainTooLate`).
- The drain of eight blocks a frame falls behind after a guest has divided the clock by more than 6.5, and only then
  (`AudioDrain.FrameLeavesFraction`, `AudioDrain.BearableMultiples`, `AudioDrain.EightToOne`); it catches up within a
  frame for each five blocks left over (`AudioDrain.CatchesUp`).
- A frame can tear or be lost without the poll that `main.cpp` makes before every `lcd_blit`
  (`Handoff.TearFree`, `Handoff.NoFrameLost`).
- `secinc` counts 29 February in 1900 and 2100 (`DateProofs.SecIncIsNext`, `DateProofs.TicksLastUntil2100`).
- Function 4 of INT 19h never clears RFLAG_BFULL, so a serial ring that has once been full takes nothing any more
  (`SerialLine.OnceFull`); it lets a stopped sender go on if and only if the buffer
  has at least eight bytes (`SerialLine.ResumesFromEightBytes`); it reports success for an empty ring too, because the status set for
  that case is overwritten (`SerialRing.Rs232c.Function4`).
- The header of the LZ format holds 24 bits of the size, so the round trip ends at 2^24 bytes (`LzProofs.RoundTrip`),
  and of more the first n mod 2^24 bytes come back (`LzProofs.DecodeGivesPrefix`).

## Model

| member | source | states |
|---|---|---|
| Scheduler.Nevent.constructor | components/np2kai/np2kai/nevent.c:124-128 | a cleared scheduler on cleared counters satisfies the invariant, with nothing queued, at time 0 |
| Scheduler.Nevent.Get1stEvent | components/np2kai/np2kai/nevent.c:130-152 | both counters are set to the head's clock, or to NEVENT_MAXCLOCK with an empty list; nothing else changes |
| EventProofs.FirstStop | components/np2kai/np2kai/nevent.c:130-152 | the CPU then stops exactly where the first event is due; the invariant holds, wherever it was set to run before |
| Scheduler.Nevent.IsWork | components/np2kai/np2kai/nevent.c:437-459 | answers exactly whether the event is in the ready list |
| Scheduler.Nevent.GetRemain | components/np2kai/np2kai/nevent.c:480-503 | returns the value EventProofs.Remaining characterises |
| EventProofs.Remaining | components/np2kai/np2kai/nevent.c:480-503 | for a queued event the result added to the current time is its due time; -1 exactly for an event that is not queued or that is one clock overdue |
| Scheduler.Nevent.ForceExit | components/np2kai/np2kai/nevent.c:505-518 | the in-place method does what ExitNow does to the abstract state |
| EventProofs.ExitKeepsQueued | components/np2kai/np2kai/nevent.c:505-518 | a positive CPU_REMCLOCK becomes 0 and CPU_CLOCK + CPU_BASECLOCK is then the current time; otherwise nothing changes; the invariant is kept and the current time does not move |
| Scheduler.Nevent.ResetEvent | components/np2kai/np2kai/nevent.c:301-329 | the search and the shift in the array remove exactly this event |
| Scheduler.Nevent.CloseGap | components/np2kai/np2kai/nevent.c:320-324 | the shift loop moves every later entry one place down and leaves the others |
| EventProofs.ApplyTouches | components/np2kai/np2kai/nevent.c:301-422 | a call leaves time, the due times and callbacks of all other events and their order alone, wherever the CPU is set to run |
| EventProofs.ResetKeepsInOrder | components/np2kai/np2kai/nevent.c:301-329 | the list stays in order, wherever the CPU is set to run |
| EventProofs.ResetKeepsQueued | components/np2kai/np2kai/nevent.c:301-329 | the invariant, the current time, every due time and the order of the others are kept, and the event is gone |
| Scheduler.Nevent.SetEvent | components/np2kai/np2kai/nevent.c:361-422 | the in-place method computes EventQueue.SetEvent on the whole state: item, list and both counters |
| Scheduler.Nevent.FindPlace | components/np2kai/np2kai/nevent.c:394-401 | the search stops at the first event later than the new one |
| Scheduler.Nevent.OpenGap | components/np2kai/np2kai/nevent.c:403-407 | the shift loop moves every entry from the place on one place up |
| Scheduler.Nevent.Insert | components/np2kai/np2kai/nevent.c:403-409 | the list becomes its front, the event, and its rest; the array never overflows |
| Scheduler.Nevent.Place | components/np2kai/np2kai/nevent.c:394-418 | inserting and, for a new head, moving both counters by the same amount |
| EventProofs.RoomForOneMore | components/np2kai/np2kai/nevent.c:403-409 | a list of distinct events that lacks one has room for it in 35 places |
| EventProofs.Pigeonhole | components/np2kai/np2kai/nevent.c:403-409 | a list of distinct events is never longer than the number of events |
| EventProofs.SetSchedules | components/np2kai/np2kai/nevent.c:361-422 | an absolute set makes the event due at the current time + eventclock, a relative one eventclock after its clock says, which for a queued event is when it was due; time and every other due time stay; the event stands behind all that are due no later and ahead of all that are due later; wherever the CPU is set to run, and not past the head if it was not before |
| EventProofs.SetKeepsInOrder | components/np2kai/np2kai/nevent.c:361-422 | distinct and sorted, wherever the CPU is set to run |
| EventProofs.SetKeepsQueued | components/np2kai/np2kai/nevent.c:361-422 | distinct, sorted, and the CPU not set to run past the head, also after inserting a new head |
| EventProofs.SetMakesDue | components/np2kai/np2kai/nevent.c:373-384 | the exact due time, flags and callback of the event set, and no other item touched |
| EventProofs.SetStops | components/np2kai/np2kai/nevent.c:408-418 | the CPU is set to stop exactly at the event set if that has become the head; otherwise both counters stand |
| Scheduler.Nevent.Fire | components/np2kai/np2kai/nevent.c:221-234 | a due event goes onto the wait list unless it is marked already, and is marked |
| Scheduler.Nevent.PassAll | components/np2kai/np2kai/nevent.c:207-236 | the compacting loop that keeps the later events at the front of the same array and appends the due ones to a wait list that may hold some already |
| Scheduler.RestingHasRoom | components/np2kai/np2kai/nevent.c:224-227 | with nothing carried over, what falls due always fits the wait list |
| Scheduler.Nevent.Advance | components/np2kai/np2kai/nevent.c:204-239 | the first half of nevent_progress as one step of the abstract state, CPU_CLOCK wrapping at 32 bits |
| EventDispatch.DueCountSplits | components/np2kai/np2kai/nevent.c:207-236 | in a sorted list the due events are a prefix; the first is late by exactly what the CPU has run past it, the others by no more |
| EventDispatch.AdvanceMoves | components/np2kai/np2kai/nevent.c:207-239 | exactly the due prefix moves to the wait list, in order; the rest stays, in order; time does not move; also where the CPU was set to run past the head |
| EventDispatch.AdvanceStops | components/np2kai/np2kai/nevent.c:206-239 | the CPU is then set to run exactly to the nearest event left, or NEVENT_MAXCLOCK clocks if that is nearer, and what it overshot is taken off CPU_REMCLOCK |
| EventDispatch.AdvanceMarks | components/np2kai/np2kai/nevent.c:209-234 | the exact item of every event after the loop: its clock moved if it was queued, marked and disabled if it was due |
| EventDispatch.NextBaseIsSafe | components/np2kai/np2kai/nevent.c:206-219 | the next stop is positive, at most NEVENT_MAXCLOCK and not past any remaining event |
| EventDispatch.AdvanceKeepsQueued | components/np2kai/np2kai/nevent.c:204-239 | the invariant is kept by the first half |
| Scheduler.Nevent.CallBack | components/np2kai/np2kai/nevent.c:173 | a callback, as a list of nevent_set, nevent_reset and nevent_forceexit calls made re-entrantly |
| Scheduler.Nevent.DispatchNext | components/np2kai/np2kai/nevent.c:167-184 | one turn of the dispatch loop, writing the carried-over events to the front of the array being read |
| Scheduler.Nevent.Execute | components/np2kai/np2kai/nevent.c:154-190 | the whole dispatch: the state of EventQueue.Execute, and the record of callbacks run |
| Scheduler.Nevent.Progress | components/np2kai/np2kai/nevent.c:192-251 | advance and dispatch in one |
| EventDispatch.LogFollowsWaitList | components/np2kai/np2kai/nevent.c:165-173 | the k-th callback is that of the k-th waiting event, and the one queued unless an earlier callback mentioned the event |
| EventDispatch.LogEntry | components/np2kai/np2kai/nevent.c:165-173 | the record names the callback that the event has when its turn comes |
| EventDispatch.NothingCarriedOver | components/np2kai/np2kai/nevent.c:175-179 | no callback that uses only these calls can leave an event with NEVENT_WAIT |
| EventDispatch.DispatchTouches | components/np2kai/np2kai/nevent.c:165-185 | dispatch changes only events that callbacks mention |
| EventDispatch.ProgressDispatches | components/np2kai/np2kai/nevent.c:192-251 | wherever the CPU was set to run, the callbacks run are those of exactly the events due by the new CPU_CLOCK, once each, in due order with ties in list order; the first is late by exactly what the CPU has run past it and none by more, so each comes exactly at its due time if and only if it has not run past the head |
| EventDispatch.ProgressRunsQueuedCallback | components/np2kai/np2kai/nevent.c:165-173 | each runs the callback it was queued with, unless a callback dispatched before it mentions it |
| EventDispatch.ProgressLeavesOthers | components/np2kai/np2kai/nevent.c:192-251 | all others stay queued at their due times in the same order, whatever the callbacks set |
| EventDispatch.ProgressRestores | components/np2kai/np2kai/nevent.c:192-251 | from any list in order with nothing waiting, one nevent_progress restores the whole invariant, wherever the CPU was set to run; nothing is left waiting or marked; time does not move |
| Scheduler.Nevent.ChangeClock | components/np2kai/np2kai/nevent.c:253-299 | the in-place rescaling, with C's truncating division and the stores to 32 bits |
| EventRuns.RescaledKeepsOrder | components/np2kai/np2kai/nevent.c:270-281 | rounded rescaling is monotone, and a clock is positive afterwards exactly if it was before |
| EventRuns.RescaledScales | components/np2kai/np2kai/nevent.c:270-281 | a positive clock becomes clock * newclock / oldclock to the nearest integer, halves upwards; 1 exactly where that would be 0, INT_MAX exactly where it would be more; a clock of 0 or less stays |
| EventRuns.ChangeClockScales | components/np2kai/np2kai/nevent.c:253-293 | that holds of every queued event and no other changes; equal counters both become the new clock of the head; different ones are each scaled and stored in 32 bits |
| EventRuns.ScaledCounter | components/np2kai/np2kai/nevent.c:288-292 | a counter is scaled to the nearest integer if and only if its dividend is not negative or divides evenly; otherwise to one more, since C cuts off towards 0 |
| EventRuns.ChangeClockKeepsSorted | components/np2kai/np2kai/nevent.c:265-293 | the list stays as it is and in due order; only clocks of queued events change |
| EventRuns.ChangeClockKeepsQueued | components/np2kai/np2kai/nevent.c:265-293 | the invariant survives exactly if the counters are equal, or nothing changes, or the scaled counter, wrapped around where it is too small for a SINT32, does not pass the head |
| EventExamples.OverdueHeadOutrun | components/np2kai/np2kai/nevent.c:284-292 | from the cleared scheduler, an event set three clocks in the past, one clock consumed and the clock halved: the scaled counter passes the overdue head; the one act out of line is the negative eventclock |
| Scheduler.Nevent.NextOpcode | components/np2kai/np2kai/i286c/i286c_mn.c:16-20 | the macro for one more instruction: the end of the slice moves on when CPU_REMCLOCK is used up |
| Scheduler.Nevent.AdjustRemain | components/np2kai/np2kai/i286c/i286c_mn.c:22-26 | the macro that gives CPU_REMCLOCK a value and moves the end of the slice by as much |
| EventProofs.AdjustMovesTheEnd | components/np2kai/np2kai/i286c/i286c_mn.c:16-26 | CPU_REMCLOCK gets exactly its new value, and neither time nor list nor items change |
| EventRuns.DoKeepsResting | components/np2kai/np2kai/i286c/i286c_mn.c:16-26 | every step, the CPU core's own included, leaves the list in order and nothing marked or waiting, and only consumed clocks move the current time |
| EventRuns.DoKeepsIdle | components/np2kai/np2kai/i286c/i286c_mn.c:16-26 | a step keeps the CPU from being set past the head if and only if it does not put off the end of the slice past it |
| EventRuns.StepOverruns | components/np2kai/np2kai/i286c/i286c_mn.c:16-26 | how far the CPU is set past the head grows only by what its core puts off the end of the slice; nevent_progress brings it to nothing |
| EventRuns.DelayBounds | components/np2kai/np2kai/i286c/i286c_mn.c:16-26 | over any run, it is at most what the core has put off the end of the current slice, counted from the last nevent_progress |
| EventExamples.NoBoundOnDelay | components/np2kai/np2kai/i286c/i286c_mn.c:16-20 | that may be as much as it likes: for every k a run from the cleared scheduler that dispatches an event due at 3 at 3 + 2 k |
| EventRuns.SessionKeepsSorted | components/np2kai/np2kai/nevent.c:124-422 | with no assumption, in every reachable state, clock changes and the CPU core's own steps included: each event at most once, in due order, unmarked, within the array, nothing waiting |
| EventRuns.SessionRecovers | components/np2kai/np2kai/nevent.c:192-251 | and one nevent_progress from any such state restores the whole invariant |
| EventRuns.ChangeClockKeepsAhead | components/np2kai/np2kai/nevent.c:265-293 | for callers that keep to the conditions of SessionKeepsIdle, a clock change keeps the whole invariant, and counter and clocks non-negative |
| EventRuns.SessionKeepsIdle | components/np2kai/np2kai/nevent.c:124-422 | the CPU is never set past the head, clock changes included, as long as no eventclock is negative, no more clocks are given back than the slice had, no end of a slice is put off past the head, nevent_progress comes only when CPU_REMCLOCK is used up, and scaled counters fit 32 bits; neither CPU_BASECLOCK nor any item clock is then ever negative |
| EventPeriods.UnqueuedStandsStill | components/np2kai/np2kai/nevent.c:204-236 | the clock of an event out of the list stands still, whatever happens to the others |
| EventPeriods.RearmedLate | components/np2kai/np2kai/nevent.c:381-384 | an event that fired and is set relatively later is due eventclock after it was due plus what CPU_CLOCK has moved since it fired |
| EventExamples.SetAgainTooLate | components/np2kai/np2kai/nevent.c:381-384 | a run from the cleared scheduler in which an event that fired at 3 is set again for 5 clocks later and is due at 12 |
| EventRuns.LevelFits | components/np2kai/np2kai/nevent.c:403-409 | in every state that satisfies the invariant the list fits its array |
| EventPeriods.ElapseFires | components/np2kai/np2kai/nevent.c:192-251 | an event that fires and is re-armed relatively is next due one period after it was due, and it fires late by at most what the CPU has run past the head, which is nothing where that has not happened |
| EventPeriods.ElapsePasses | components/np2kai/np2kai/nevent.c:192-251 | an event that does not fire keeps its due time and stays armed |
| EventPeriods.DueMovesByPeriods | components/np2kai/np2kai/nevent.c:192-251 | over any run the due time is the first one plus the periods elapsed |
| EventPeriods.NoDrift | components/np2kai/np2kai/nevent.c:192-251 | the k-th firing comes no earlier than the first due time plus the first k periods, and later by at most what the CPU has run past the head in that slice, however late earlier ones were and whatever else is set |
| EventPeriods.LateByDelay | components/np2kai/np2kai/i286c/i286c_mn.c:16-26 | so it is late by at most the clocks by which the CPU core has put off the end of that slice, and exact where it has not |
| LzPack.Unmatched | components/np2kai/np2kai/accessories/lzxpack.c:57-65 | the innermost loop leaves what is unmatched at one distance |
| LzPack.SearchBack | components/np2kai/np2kai/accessories/lzxpack.c:56-71 | the loop over distances computes the search |
| LzPack.FindMatch | components/np2kai/np2kai/accessories/lzxpack.c:52-72 | window and reach of the level, then the search |
| LzFormat.BestIsLongest | components/np2kai/np2kai/accessories/lzxpack.c:52-72 | the match found lies in the window min(pos, 2^(16-level)) and is no longer than min(rest, 2^level); none in the window is longer, and none nearer is as long |
| LzStream.TokenIsGreedy | components/np2kai/np2kai/accessories/lzxpack.c:52-84 | at every position the token is a copy if and only if three bytes there can be copied from within the window; it is then the longest copy, from the nearest place; otherwise it is the byte |
| LzStream.TokensCover | components/np2kai/np2kai/accessories/lzxpack.c:46-86 | the tokens, each beginning where the one before ends, are all greedy and cover the data |
| LzStream.CoversOnce | components/np2kai/np2kai/accessories/lzxpack.c:46-86 | there is only one such list of tokens |
| LzStream.EncodeIsStream | components/np2kai/np2kai/accessories/lzxpack.c:40-88 | what is written is the low 24 bits of the size, the level, and the layout of these tokens: before every eight a byte with a bit for each, set for a copy, then the bytes and the 16-bit fields of distance and length, high byte first |
| LzStream.EncodeSize | components/np2kai/np2kai/accessories/lzxpack.c:46-88 | its exact size: 4, a bit a token, a byte a token and one more for each copy |
| LzProofs.MatchIsSound | components/np2kai/np2kai/accessories/lzxpack.c:56-72 | a match that is written repeats what stands there, within window and reach |
| LzProofs.FieldSplits | components/np2kai/np2kai/accessories/lzxpack.c:76-79 | distance and length fit the 16 bits and come apart again at every level |
| LzProofs.StepAppends | components/np2kai/np2kai/accessories/lzxpack.c:72-85 | a token only appends, and its control bit tells which kind it is |
| LzProofs.LaterTokensAppend | components/np2kai/np2kai/accessories/lzxpack.c:46-86 | later tokens leave what is written alone, but for unused control bits |
| LzPack.PutToken | components/np2kai/np2kai/accessories/lzxpack.c:72-84 | one token written in place; which token, and which bytes, LzStream.TokenIsGreedy and LzStream.EncodeIsStream say |
| LzPack.WriteToken | components/np2kai/np2kai/accessories/lzxpack.c:72-85 | one token takes the loop to the next position of the same stream |
| LzPack.BeginControl | components/np2kai/np2kai/accessories/lzxpack.c:47-51 | a new control byte is begun exactly when the bits of the last are used up |
| LzPack.WriteTokens | components/np2kai/np2kai/accessories/lzxpack.c:46-86 | the loop leaves the whole stream in the buffer |
| LzPack.Lzpacking | components/np2kai/np2kai/accessories/lzxpack.c:18-89 | the buffer holds the encoding at this level, inside the space lzpack allocates |
| LzProofs.SizeBound | components/np2kai/np2kai/accessories/lzxpack.c:99-102 | the output is at most 4 + ceil(n/8) + n bytes, always less than the 9*ceil(n/8) + 8 allocated |
| LzPack.Lzpack | components/np2kai/np2kai/accessories/lzxpack.c:91-122 | the encoding returned is the layout of the greedy tokens of the first level whose exact size none of the 17 levels is below |
| LzProofs.CopyContinues | components/np2kai/np2kai/common/bmpdata.c:161-164 | a byte-by-byte copy of a repetition writes the next bytes, even where it reads what it has just written |
| LzProofs.DecodeStep | components/np2kai/np2kai/common/bmpdata.c:148-171 | the decoder undoes one token, or as much of it as it still wants |
| LzProofs.DecodeUndoesEncode | components/np2kai/np2kai/common/bmpdata.c:124-175 | from any position, the decoder on the finished stream yields as many bytes as it wants |
| LzProofs.DecodeGivesPrefix | components/np2kai/np2kai/common/bmpdata.c:177-186 | decoding gives back the first n mod 2^24 bytes of any n bytes, at every level |
| LzProofs.RoundTrip | components/np2kai/np2kai/common/bmpdata.c:177-186 | decoding gives back the input at every level if and only if its length fits 24 bits |
| LzReader.CopyRepeats | components/np2kai/np2kai/common/bmpdata.c:161-164 | a copy appends bytes each of which repeats the one so far before it |
| LzReader.DecodePlays | components/np2kai/np2kai/common/bmpdata.c:124-175 | from any byte on, the decoder gives what the tokens there say, of every list of readable tokens and not only of greedy ones |
| LzReader.DecodeReads | components/np2kai/np2kai/common/bmpdata.c:177-186 | a file of any readable tokens decodes to what they say, as many bytes as its header asks for |
| LzPack.CopyBack | components/np2kai/np2kai/common/bmpdata.c:161-164 | the copy loop of the decoder |
| LzPack.BmpdataLzx | components/np2kai/np2kai/common/bmpdata.c:124-175 | the decoder, in place, computes DecodeFrom |
| LzPack.PackAndSolve | components/np2kai/np2kai/common/bmpdata.c:124-186 | compressing and decompressing, both as they work, gives back the first n mod 2^24 of any n bytes |
| Handoff.MailIsNeverStranded | main/lcd_st7789.cpp:599-626 | in every interleaving, polled or not, a posted frame has a notification pending or about to come, or core 0 will still look |
| Handoff.Core0ComesToRest | main/lcd_st7789.cpp:599-617 | once core 1 is silent, core 0 comes to rest with an empty mailbox |
| Handoff.PollingTakesTurns | main/lcd_st7789.cpp:599-630 | with a poll before every lcd_blit the cores take turns: core 1 draws only while core 0 has nothing |
| Handoff.TearFree | main/lcd_st7789.cpp:599-630 | no core 1 write overlaps a core 0 read of the same buffer, in any interleaving, if and only if core 1 polls before every lcd_blit |
| Handoff.UnpolledBlitTears | main/lcd_st7789.cpp:612-615 | a run in which two unpolled calls let the late re-check clear the flag under a third |
| Handoff.OneBufferSurvives | main/lcd_st7789.cpp:607-611 | with one buffer the picture handed over is never older than what will be shown |
| Handoff.RestIsDelivered | main/lcd_st7789.cpp:607-615 | when both cores rest, the last frame handed over has been shown |
| Handoff.ShownByItself | main/lcd_st7789.cpp:599-617 | while core 1 is outside drawing and lcd_blit, core 0 by itself shows the last frame handed over within 21 steps |
| Handoff.StepsAreFew | main/lcd_st7789.cpp:599-626 | whatever core 1 goes on with, short of another call, core 0 has only so many steps left |
| Handoff.LastFrameIsShown | main/lcd_st7789.cpp:599-630 | from any point of any run, however both cores go on short of another lcd_blit call, core 0 takes at most 37 more steps, and when it can take no more the last frame handed over has been shown |
| Handoff.NoFrameLost | main/lcd_st7789.cpp:607-611 | no frame is lost if and only if core 1 polls before every lcd_blit or uses one buffer |
| Handoff.SecondBufferIsLost | main/lcd_st7789.cpp:607-611 | a second buffer posted between reading and clearing the mailbox is lost |
| Sha1.ShiftIsRotl | components/np2kai/np2kai/debugsnapshot.c:100 | the shift macro is the rotation of the standard |
| Sha1.ChooseIsCh | components/np2kai/np2kai/debugsnapshot.c:171 | the first function, written with \|, is Ch |
| Sha1.MajorityIsMaj | components/np2kai/np2kai/debugsnapshot.c:194 | the third, written with \|, is Maj |
| Sha1.Context.Schedule | components/np2kai/np2kai/debugsnapshot.c:150-160 | the word array is the message schedule |
| Sha1Spec.BigEndianBytes | components/np2kai/np2kai/debugsnapshot.c:151-157 | of the four bytes of a word the first is the highest, and so on |
| Sha1.Context.TurnAll | components/np2kai/np2kai/debugsnapshot.c:168-212 | the four loops are the 80 rounds |
| Sha1.Context.ProcessMessageBlock | components/np2kai/np2kai/debugsnapshot.c:136-226 | the digest becomes the compression of the block, the index 0 |
| Sha1.CountByte | components/np2kai/np2kai/debugsnapshot.c:297-307 | the two counters hold the length in bits; a message of 2^64 bits or more is noticed |
| Sha1.Context.Reset | components/np2kai/np2kai/debugsnapshot.c:117-134 | an empty message, nothing computed or corrupted |
| Sha1.Context.InputByte | components/np2kai/np2kai/debugsnapshot.c:292-313 | one byte more, and a full block hashed |
| Sha1.Context.Input | components/np2kai/np2kai/debugsnapshot.c:279-314 | the data are appended; after a result or an overflow the context is only marked |
| Sha1.StreamingCounts | components/np2kai/np2kai/debugsnapshot.c:279-314 | between calls the block index is the length modulo 64 and the counters are the length |
| Sha1.Context.PadMessage | components/np2kai/np2kai/debugsnapshot.c:228-263 | the digest becomes that of the message as this code pads it, in the one-block and the two-block case |
| Sha1.CodePadded | components/np2kai/np2kai/debugsnapshot.c:228-263 | the padded message ends on a block boundary |
| Sha1.PaddingIsStandard | components/np2kai/np2kai/debugsnapshot.c:239-250 | the padding is that of section 5.1.1 of FIPS 180-4 if and only if the length is not 55 modulo 64 |
| Sha1Example.DigestsDiffer | components/np2kai/np2kai/debugsnapshot.c:239-250 | for 55 zero bytes the two digests are computed to the end of their rounds: they differ in the first word |
| Sha1Vector.DigestOfAbc | components/np2kai/np2kai/debugsnapshot.c:124-250 | all five words of the digest of "abc", computed to the end: a9993e36 4706816a ba3e2571 7850c26c 9cd0d89d, by the standard and by the code alike |
| Sha1.Context.Result | components/np2kai/np2kai/debugsnapshot.c:265-277 | the first call leaves the digest of everything fed in, a second changes nothing, a marked context fails |
| Sha1.HashChunks | components/np2kai/np2kai/debugsnapshot.c:279-314 | for every way of cutting a message into calls the digest is that of FIPS 180-4 unless the length is 55 modulo 64 |
| StatFormat.ReadHeaderBytes | components/np2kai/np2kai/statsave.c:119-123 | a section header comes back from its 16 bytes |
| StatFormat.SectionLayout | components/np2kai/np2kai/statsave.c:119-123 | where name, version, size, data and padding of a section stand, numbers with the lowest byte first |
| StatFormat.SectionStands | components/np2kai/np2kai/statsave.c:239-277 | every section stands where the image of those before it ends, and the next one a multiple of 16 bytes on |
| StatSave.Handle.Create | components/np2kai/np2kai/statsave.c:315-343 | a new file holds the file header and no section |
| StatSave.Handle.CreateSection | components/np2kai/np2kai/statsave.c:345-361 | the open section is closed, the next one is ready but nothing of it is written |
| StatSave.Handle.Write | components/np2kai/np2kai/statsave.c:363-397 | the data are appended; the first call of a section writes a header to be patched |
| StatSave.Handle.PadAndPatch | components/np2kai/np2kai/statsave.c:246-260 | padding and the real header make the open section a finished one |
| StatSave.Handle.CloseWritten | components/np2kai/np2kai/statsave.c:239-277 | the file holds one finished section more if anything was written, and the same ones if not |
| StatSave.Handle.CloseWriter | components/np2kai/np2kai/statsave.c:399-406 | the file is the image of the sections written |
| StatSave.Handle.Open | components/np2kai/np2kai/statsave.c:204-237 | a file is accepted exactly if it begins with the program's header |
| StatSave.Handle.CloseRead | components/np2kai/np2kai/statsave.c:261-268 | wherever in a section the reader stopped, the next section's position is found |
| StatSave.Handle.ReadSection | components/np2kai/np2kai/statsave.c:279-296 | the next header is read, if there is one; otherwise failure |
| StatSave.Handle.Read | components/np2kai/np2kai/statsave.c:298-313 | the next bytes of the section exactly if it has that many, also when the 32-bit check wraps around |
| StatRoundTrip.SaveSection | components/np2kai/np2kai/statsave.c:345-397 | one section written in any number of pieces |
| StatRoundTrip.Save | components/np2kai/np2kai/statsave.c:315-406 | the file of a whole save |
| StatRoundTrip.Load | components/np2kai/np2kai/statsave.c:279-313 | every section is found, with its header and whatever prefix the reader wants |
| StatRoundTrip.SaveAndLoad | components/np2kai/np2kai/statsave.c:204-406 | names, versions, sizes and bytes come back in order for every split into writes and every choice of prefixes; a section without a write is absent |
| EventSave.NumberFindsBack | components/np2kai/np2kai/statsave.c:419-445 | looking a number up finds the thing back exactly if the table has it |
| EventSave.ReadRecordBytes | components/np2kai/np2kai/statsave.c:654-659 | an event record comes back from its bytes, negative clocks and flags included |
| EventSave.RecordLayout | components/np2kai/np2kai/statsave.c:654-659 | where number, clock, flags and callback stand in a record, the clock in two's complement |
| EventSave.ReceiveOwn | components/np2kai/np2kai/statsave.c:698-725 | what reading an event's own record does: place, callback and clock, or the item without its callback, or nothing |
| EventSave.ReloadedLists | components/np2kai/np2kai/statsave.c:727-747 | both reloaded lists are the saved ones without the events that are not in the tables |
| EventSave.ReloadedItem | components/np2kai/np2kai/statsave.c:698-747 | every item after reloading: saved, saved without callback, or as it was |
| EventSave.KeepsOrder | components/np2kai/np2kai/statsave.c:736-741 | what is kept is a subsequence |
| EventSave.KeepsKnown | components/np2kai/np2kai/statsave.c:736-741 | every known event is kept |
| EventSave.KeepsAll | components/np2kai/np2kai/statsave.c:736-741 | nothing is lost if and only if every event is known |
| EventSave.ReloadFinds | components/np2kai/np2kai/statsave.c:654-741 | an event of the saved ready list is in the reloaded one, with its saved item, if and only if the tables have a row for it and one for its callback |
| EventSave.ReloadKeepsEvents | components/np2kai/np2kai/statsave.c:698-747 | each reloaded event stood in the saved list and has its saved clock, flags and callback |
| EventSave.ReloadKeepsIdle | components/np2kai/np2kai/statsave.c:727-747 | with the saved counters the reloaded scheduler satisfies the scheduler's invariant |
| EventStat.SearchWhat | components/np2kai/np2kai/statsave.c:419-431 | the search loop by content |
| EventStat.SearchId | components/np2kai/np2kai/statsave.c:433-445 | the search loop by number |
| EventStat.NeventWrite | components/np2kai/np2kai/statsave.c:661-675 | one record appended to the section |
| EventStat.FlagSaveEvt | components/np2kai/np2kai/statsave.c:677-696 | the section's data are the two counts and the records of both lists |
| EventStat.NeventRead | components/np2kai/np2kai/statsave.c:698-725 | one record received into the arrays, with a warning exactly if the event found no place |
| EventStat.FlagLoadEvt | components/np2kai/np2kai/statsave.c:727-747 | both lists reloaded into the arrays from the section's bytes |
| EventStat.Transfer | components/np2kai/np2kai/statsave.c:677-747 | saving one scheduler to a file and loading it into another: subsequence, invariant, and a warning exactly if an event was lost |
| Dates.DaysBeforeYearIs | components/np2kai/np2kai/calendar.c:43-47 | the sum of the year loop is the number the Gregorian rule gives |
| Dates.MonthLengths | components/np2kai/np2kai/calendar.c:11-34 | the months are those of the Gregorian calendar |
| Dates.SecondsIncrease | components/np2kai/np2kai/calendar.c:35-62 | the count is strictly increasing in lexicographic date order |
| Dates.SecondsDetermine | components/np2kai/np2kai/calendar.c:35-62 | two valid dates with one count are the same |
| Calendar.SysTime.CountDays | components/np2kai/np2kai/calendar.c:43-54 | both loops together count the days before the date |
| Calendar.SysTime.ToSeconds | components/np2kai/np2kai/calendar.c:35-62 | the conversion to seconds |
| Calendar.SysTime.FindYear | components/np2kai/np2kai/calendar.c:76-91 | the year loop ends, with the year field wrapping at 16 bits |
| Calendar.SysTime.FindMonth | components/np2kai/np2kai/calendar.c:93-107 | the month loop ends at one of twelve months |
| Calendar.SysTime.SetSeconds | components/np2kai/np2kai/calendar.c:64-107 | the conversion from seconds, for any signed count |
| DateProofs.FromSecondsIsValid | components/np2kai/np2kai/calendar.c:64-107 | every non-negative count gives a valid date |
| DateProofs.DateBack | components/np2kai/np2kai/calendar.c:35-107 | every valid date comes back |
| DateProofs.BackAndForth | components/np2kai/np2kai/calendar.c:35-107 | a count comes back if and only if it is below the beginning of year 65536 and not negative, or is minus one day |
| DateProofs.SecIncIsNext | components/np2kai/np2kai/calendar.c:109-155 | one step is one more second, and a valid date if and only if it is not the end of 28 February of a year such as 1900 or 2100 |
| DateProofs.SecIncWeek | components/np2kai/np2kai/calendar.c:138 | the weekday moves on at midnight and only then |
| DateProofs.TicksAgree | components/np2kai/np2kai/calendar.c:109-155 | from any valid date, n steps that pass no end of a 28 February of a year such as 1900 or 2100 lead to the date the conversion gives for n seconds more, as far as the year has 16 bits |
| DateProofs.TicksStayValid | components/np2kai/np2kai/calendar.c:109-155 | all n dates are valid if and only if no such second is passed |
| DateProofs.NoneBefore2100 | components/np2kai/np2kai/calendar.c:129-137 | from 1901 on the first such second ends 28 February 2100 |
| DateProofs.TicksLastUntil2100 | components/np2kai/np2kai/calendar.c:109-155 | from 1901 on all n dates are valid if and only if they do not pass the end of 28 February 2100 |
| Calendar.SysTime.SecInc | components/np2kai/np2kai/calendar.c:109-155 | the in-place step, field by field |
| DateProofs.IncsAreTicks | components/np2kai/np2kai/calendar.c:201-211 | n calls from steps s are (s + 10 n) div 564 seconds, and (s + 10 n) mod 564 steps are left |
| DateProofs.IncsKeepTime | components/np2kai/np2kai/calendar.c:201-211 | seconds elapsed times 564 plus the change of steps is 10 n |
| Calendar.Ticker.Inc | components/np2kai/np2kai/calendar.c:201-211 | one tick, in place |
| Calendar.Ticker.Frames | components/np2kai/np2kai/calendar.c:201-211 | n ticks: the seconds count has advanced by exactly (steps + 10 n) div 564, at a valid date |
| DateProofs.YearRange | components/np2kai/np2kai/calendar.c:157-166 | calendar_set gives a year from 1980 to 2079 whatever bytes it gets |
| DateProofs.DateSurvives | components/np2kai/np2kai/calendar.c:157-182 | a valid date survives the BCD form if and only if its year is one of those |
| DateProofs.BytesSurvive | components/np2kai/np2kai/calendar.c:157-182 | six bytes survive if and only if their low digits are decimal and the year byte has two decimal digits |
| DateProofs.BytesAreDigits | components/np2kai/np2kai/calendar.c:169-182 | the six bytes of a valid date hold its decimal digits, month and weekday in one byte |
| Calendar.SysTime.SetBcd | components/np2kai/np2kai/calendar.c:157-172 | the date set from six bytes |
| Calendar.SysTime.GetBcd | components/np2kai/np2kai/calendar.c:174-182 | the six bytes of the date |
| DateProofs.DifferenceAdds | components/np2kai/np2kai/calendar.c:184-189 | adding the difference of two dates to one gives the other |
| Calendar.AddTimeDiff | components/np2kai/np2kai/calendar.c:187-189 | a date moved by a number of seconds, in place |
| Calendar.Resume | components/np2kai/np2kai/calendar.c:193-225 | the virtual date set earlier has moved on by as many seconds as the real clock since; it is then the date secinc would have reached, unless that gets a February wrong on the way |
| DateProofs.TicksReach | components/np2kai/np2kai/calendar.c:193-212 | the date n seconds later by conversion is the one n steps of secinc reach, with any weekday |
| SerialLine.RunIsSound | components/np2kai/np2kai/bios/bios0c.c:34-98 | in every interleaving: the count within the capacity, XOFF and XON alternating from XOFF on, and with flow control XOFF sent no later than the ring was full |
| SerialLine.PutIsSound | components/np2kai/np2kai/bios/bios0c.c:63-89 | one word more keeps this, and the line is stopped at the moment the ring becomes full |
| SerialLine.GetIsSound | components/np2kai/np2kai/bios/bios19.c:123-152 | one word less keeps it |
| SerialLine.FirstInFirstOut | components/np2kai/np2kai/bios/bios19.c:123-141 | words are read in the order accepted, none twice and none left out |
| SerialLine.OnceFull | components/np2kai/np2kai/bios/bios0c.c:34-93 | nothing clears RFLAG_BFULL: a ring that has been full accepts nothing any more |
| SerialLine.MarksAre | components/np2kai/np2kai/bios/bios19.c:90-93 | XOFF is due at three quarters of the ring, XON below a quarter, both rounded down |
| SerialLine.CodesAreSent | components/np2kai/np2kai/bios/bios0c.c:74-96 | for a buffer of a multiple of eight bytes exactly the word that brings the ring to three quarters sends XOFF while the line runs |
| SerialLine.RingFillsBuffer | components/np2kai/np2kai/bios/bios0c.c:64-72 | the words of the ring fill the buffer |
| SerialLine.AcceptedIsPrefix | components/np2kai/np2kai/bios/bios0c.c:34-93 | what is accepted is a first part of what is received, and all of it unless the ring has been full |
| SerialLine.ObedientSenderLosesNothing | components/np2kai/np2kai/bios/bios0c.c:83-88 | a sender that sends at most m words after XOFF loses nothing if the ring has more than m words of room when XOFF is sent |
| SerialLine.RoomIsNeeded | components/np2kai/np2kai/bios/bios0c.c:83-88 | with less room such a sender can fill the ring |
| SerialLine.ResumesFromEightBytes | components/np2kai/np2kai/bios/bios19.c:90-93 | from every reachable stopped state reading the ring empty lets the sender go on, if and only if the buffer has at least eight bytes |
| SerialLine.LargeBufferResumes | components/np2kai/np2kai/bios/bios19.c:143-148 | with eight bytes or more it does so with exactly one XON |
| SerialLine.SmallBufferStops | components/np2kai/np2kai/bios/bios0c.c:83-88 | a smaller buffer is stopped by its first word |
| SerialLine.SmallBufferStaysStopped | components/np2kai/np2kai/bios/bios19.c:90-93 | and XON is then never sent |
| SerialShift.InputsAreSteps | components/np2kai/np2kai/bios/bios0c.c:34-82 | received bytes, with shift codes and DEL, are to the line steps of the kind the laws are about |
| SerialShift.ShiftedTextComesBack | components/np2kai/np2kai/bios/bios0c.c:36-55 | text of bytes a 7-bit line can carry, sent with shift codes, is stored as it was |
| SerialShift.StoredBits | components/np2kai/np2kai/bios/bios0c.c:36-62 | the low seven bits of a byte are stored, under the shift's high bit or its own; 0 exactly for DEL where so set |
| SerialShift.ShiftCodes | components/np2kai/np2kai/bios/bios0c.c:36-55 | exactly 0x0e and 0x0f are shift codes, where these count, and shift out and in |
| SerialShift.PlainLine | components/np2kai/np2kai/bios/bios0c.c:34-82 | on a line without shift codes, until the ring has been full, the words read and those in the ring are data * 256 + status of all bytes received, in order, with 0 for 0x7f and 0xff where DEL counts as 0; from then on no more are |
| SerialShift.ShiftedLine | components/np2kai/np2kai/bios/bios0c.c:34-82 | with shift codes, until the ring is full, the data read and in the ring are the text that the bytes received stand for |
| SerialShift.TextArrives | components/np2kai/np2kai/bios/bios0c.c:34-82 | so text sent with shift codes over a 7-bit line is what is read |
| SerialRing.Rs232c.Translate | components/np2kai/np2kai/bios/bios0c.c:36-62 | shift codes are noted and not stored, other bytes shifted, DEL stored as 0 where so set |
| SerialRing.PutInRing | components/np2kai/np2kai/bios/bios0c.c:64-65 | a word stored at the put pointer extends the queue and disturbs no other |
| SerialRing.GetFromRing | components/np2kai/np2kai/bios/bios19.c:129-137 | the word at the get pointer is the first of the queue, and the rest follows it |
| SerialRing.PutDescribes | components/np2kai/np2kai/bios/bios0c.c:63-89 | pointer, count and flag updates of the interrupt keep the control block in step with the line |
| SerialRing.GetDescribes | components/np2kai/np2kai/bios/bios19.c:133-151 | so do those of function 4 |
| SerialRing.Rs232c.SetUp | components/np2kai/np2kai/bios/bios19.c:64-98 | functions 0 and 1 leave an empty ring with the thresholds of its size, and the two times given or their defaults |
| SerialRing.Rs232c.Interrupt | components/np2kai/np2kai/bios/bios0c.c:20-96 | the handler, on memory and the shift flags: what Handle does to the line and the shift |
| SerialRing.Rs232c.Function4 | components/np2kai/np2kai/bios/bios19.c:102-192 | one step Get of the line and its word; status 1 without a ring, otherwise 0, also when the ring was empty |
| SerialRing.Rs232c.Function2 | components/np2kai/np2kai/bios/bios19.c:115-117 | the number of queued words |
| SerialRing.Rs232c.Serve | components/np2kai/np2kai/bios/bios0c.c:10-98 | any interleaving of received bytes and reads on memory reads exactly what the line delivers for the steps those bytes mean; with bit 0x80 of MEMB_RS_S_FLAG clear, the words of the bytes received, in order, until the ring is full |
| AudioDrain.EmittedIs | main/main.cpp:590-595 | the loop stops with less than a block left, or out of tries or blocks |
| AudioDrain.GuardIsEnough | main/main.cpp:590-595 | eight tries leave less than a block if and only if less than nine are owed |
| AudioDrain.DcycMeans | main/main.cpp:562-565 | a cycle count of at most a 20th of a second is taken as it is, across the counter's wrap-around, any other for a 60th of a second |
| AudioDrain.OwedIsSmall | main/main.cpp:565-590 | for any two clock rates, every frame after the change owes less than nine blocks if and only if the old rate plus 50 times a 20th of the new one is at most nine times the new one |
| AudioDrain.OwedAtOneRate | main/main.cpp:565-590 | at any one clock rate it owes less than three and a half |
| AudioDrain.FrameLeavesFraction | main/main.cpp:561-596 | and exactly under that condition less than a block is left after every such frame |
| AudioDrain.GuardNeverBinds | main/main.cpp:561-596 | after every frame of any run whose clock changes all meet the condition, less than a block is left |
| AudioDrain.BearableMultiples | components/np2kai/np2kai/io/np2sysp.c:221-246 | of the multiples a guest can set, exactly the changes that divide the clock by at most 6.5 meet it |
| AudioDrain.SmallMultiples | main/main.cpp:496-517 | all changes among the multiples 1 to 5 of the menu meet it, whatever the base clocks |
| AudioDrain.EightToOne | components/np2kai/np2kai/io/np2sysp.c:221-246 | from eight times the base clock to once, a frame leaves a whole block behind |
| AudioDrain.CatchesUp | main/main.cpp:588-596 | what is left over then is not lost: five blocks a frame are made up until less than one is left |
| AudioDrain.Conservation | main/main.cpp:588-595 | at a constant clock blocks played and accumulator account for every cycle, even if sound_pcmlock fails |
| AudioDrain.PlayedExactly | main/main.cpp:588-595 | at any constant clock rate the blocks played are exactly the whole 50ths of a second of emulated time |
| AudioDrain.CyclesAreTime | main/main.cpp:562-565 | the cycles counted are the emulated time passed, across wrap-around of the 32-bit counter |
| AudioDrain.Drain.DrainBlocks | main/main.cpp:590-596 | the guarded loop, in place |
| AudioDrain.Drain.DrainFrame | main/main.cpp:561-596 | one frame, in place |

## Left out

- Scheduler.Nevent.SetEvent: clocks are unbounded integers; a SINT32 overflow of an item's clock, undefined in C, is not modelled (CPU_CLOCK's wrap-around and the stores of `nevent_changeclock` are).
- EventRuns.SessionKeepsIdle: that the CPU is never set past the head holds for sessions that keep to `EventRuns.Mannered`, of which the guard on nevent_progress is that of the loop in `pccore.c`; without it `EventRuns.SessionKeepsSorted` holds, and what is dispatched then is said by `EventDispatch.ProgressDispatches`.
- EventRuns.DelayBounds: at one CPU clock; how a clock change scales what has been put off is said for one change only, by `EventRuns.ChangeClockKeepsQueued`.
- Scheduler.Nevent.Advance: the wait list's array must hold what is carried over and what falls due, which the C code does not check; with nothing carried over it always does (`Scheduler.RestingHasRoom`). `Scheduler.Nevent.PassAll` and `Scheduler.Nevent.Progress` assume the same.
- NEVENT_WAIT, `nevent_waitreset`, `nevent_forceexecute`, `nevent_setbyms` and the screendispflag workaround.
- Locks, and the variants for Windows and asynchronous CPUs.
- Sha1.HashChunks: at lengths of 55 modulo 64 it says only that the digest is that of the message as the code pads it. `Sha1Example.DigestsDiffer` shows one such digest to be wrong; that none is right by chance cannot be proved without inverting the hash.
- LzPack.BmpdataLzx: streams that end early or reach back before the output are outside its contract, as the C code does not check for them.
- StatSave: failing file operations and the error text; `STATFLAG_DIFF` checks and the per-device handlers of `statsave.c`.
- StatSave.Handle.Write: the file must stay within the 2^31 bytes that a 32-bit `long` can seek to.
- StatRoundTrip.Save: the same bound, on the sum of what is written; StatRoundTrip.SaveAndLoad inherits it.
- StatRoundTrip.SaveAndLoad: files of less than 2^31 bytes.
- EventSave.RecordBytes: the record is laid out for 32-bit pointers and `int`, as on the ESP32.
- EventStat.FlagLoadEvt: only sections whose lists fit the scheduler's arrays, as every saved one does; the C code does not check the counts.
- Calendar: reading the real clock, the milliseconds, and the choice between real and virtual calendar in `calendar_get`.
- SerialRing.Rs232c.SetUp: the ring must not reach the end of its segment; line speed, timers, interrupt masks and the work-area flags are not modelled.
- Functions 3, 5 and 6 of INT 19h, and the end-of-interrupt command to the interrupt controller.
- DateProofs.TicksAgree: up to the end of year 65535, where the 16-bit year wraps around.
- DateProofs.IncsKeepTime: up to the end of year 65535, and over stretches without the end of a 28 February that `secinc` gets wrong, after which the date is not valid (`DateProofs.TicksStayValid`).
- Calendar.Ticker.Frames: as DateProofs.IncsKeepTime.
- Handoff: memory-model effects beyond one order of single accesses, and how long a blit takes.
- AudioDrain: the throttle (`rt_emu_us`), and the sample data themselves.
- FM, OPL and SB16 boards, GDC, SCSI and PCI code, the menu, the LCD driver and the configuration tables.
