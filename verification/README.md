# SE device models in Dafny

A Dafny model of the emulator's timing and bus devices, with proofs of what they are
built to guarantee.  `dafny verify dfyconfig.toml` checks the whole project.

Most devices appear twice.  A value model (a `datatype` and transition functions) carries
the lemmas; a class with the device's fields, arrays and loops is proved, method by method,
to leave the value that the transition gives.  The results about the functions are
therefore results about the methods.

| files | device | main results |
|---|---|---|
| `Bcd`, `Calendar`, `ClockTime`, `RtcState`, `RtcMotion`, `RtcReach`, `RtcAlarm`, `RtcRun`, `RtcTime`, `RtcBulk`, `CounterView`, `CounterVisits`, `RtcTurns`, `RtcStill`, `RtcAccess`, `Dp8573a` | DP8573A real-time clock | the closed-form jump over time switched off equals stepping millisecond by millisecond, and exactly when giving up does; the alarm predictor is exact; a run invariant over all register writes |
| `HpcClock`, `Hpc1` | HPC1 33 MHz clock and receive timer | exact, additive in time, exact deadline |
| `Words`, `Ethernet`, `EthernetReceive`, `EthernetTransmit`, `EthernetRun`, `EthernetSend`, `EthernetSignals`, `EthernetDevice` | HPC1 Ethernet DMA | every request on every run is one that a history of frames and packets allows; a chain of packets is sent, also under load |
| `GraphicsDma`, `GraphicsLines`, `GraphicsDmaChannel` | PIC1 graphics DMA | what a chain of descriptors transfers; progress does not depend on how time is split; serving terminates on looping chains |
| `CharacterTiming`, `SerialChannel`, `SerialFrame`, `SerialRun`, `SerialReceive`, `Ring`, `ChannelState`, `Interrupts`, `SerialInterrupts` | Z85230 serial controller | no drift, first in first out, additive in time, nested interrupts |
| `Mouse`, `MouseTiming`, `SgiMouse` | serial mouse | motion is conserved through coalescing and splitting, and bytes do not drift |
| `Eeprom` | NMC93CS46 EEPROM | serial write and serial read are inverse |
| `ScsiTargets`, `ScsiBus`, `ScsiConnection`, `ScsiRun`, `ScsiTransfer`, `ScsiBlocks`, `ScsiReplies`, `ScsiMessages`, `ScsiSnapshot`, `ScsiDrive`, `ScsiDevice`, `ScsiDeviceRun` | SCSI bus, disk and CD-ROM drive | media and transfers stay consistent on every run; blocks read as they were last written; chunked transfers are whole transfers; snapshots are all or nothing and round-trip |
| `Wd33c93b`, `WdWindows`, `WdOutWindows`, `WdBlocks`, `WdSelection`, `WdStepwise`, `WdDevice` | WD33C93B controller | transfer-count windows do not change what a command reads or writes; selection times out exactly; phases one by one |

`Options` holds the optional and fallible values, `Arithmetic` the shared units and division lemmas.

## Conventions

Virtual time is a natural number of attoseconds.  Integers are unbounded; where the code
relies on a width the model writes it out (32-bit addresses and increments in `GraphicsDma`,
28-bit addresses and 13-bit counts in `Ethernet`, the 24-bit counter of `HpcClock`, the 32-bit
counts of `Wd33c93b`, which wrap below zero as in an optimised build, byte registers as bit
vectors in the clock and the serial controller).  Memory, storage and the initiator's
decisions are universally quantified: a board is any function of
the requests so far, an answer to a DMA request is any bytes or a failure, a chunk may be
accepted or rejected at will, host storage works or fails by a flag.

A request of the Ethernet channel and its completion are one step, as are a request of the
WD33C93B and its service; guest writes, frames and time come between steps.  The histories
that `EthernetRun` keeps beside the channel are not part of the device: they record what
memory gave and took, and the theorem is that the device never departs from them.

## Where the code and its intent part

* `advance_offline_milliseconds` returns early when a counter does not decode
  (crates/se_device/src/dp8573a.rs:331-333), while stepping goes on.  Where the counters
  decode the jump is the steps; where they do not, it is right exactly when the steps would
  have changed nothing.  `RtcStill.StepsChangeNothing` gives that condition on the registers:
  whole turns of the counters that hold numbers, with every status bit that a turn raises up
  already.  `TenMillisecondsUnseen` is a clock on which ten milliseconds meet it and one does
  not, and `StuckIsReached` writes registers until it is there.
* The alarm predictor takes a flag that is up for a match in progress
  (crates/se_device/src/dp8573a.rs:702-719).  On every run it is one
  (`RtcRun.RunKeepsInvariant`), but a saved state may say otherwise.
  `RtcAlarm.PredictionFails` says exactly when the prediction is wrong then, and
  `ForgedFlagShows` is a clock that loses an alarm by it.
* The time that the graphics DMA channel banks saturates at 2^128 - 1
  (crates/se_device/src/pic1.rs:194-210).  A channel with nothing due has banked nothing, so
  no interval that a duration can express gets there; `FullBankShowsTheSplit` shows a
  channel whose bank is full and what it loses.
* A transmit chain that ends without end-of-packet, or a controller report without a packet
  on the wire, leaves the staging frame uncleared, and the next packet carries those bytes in
  front (crates/se_device/src/hpc1.rs:583-591, 749-784).  `EthernetTransmit.RequestIsAllowed`
  says that a packet is exactly its fragments if and only if no packet was abandoned since
  the frame was last empty; `StaleBytesAreSent` is the run that shows it.
* The controller's table of command lengths has no sixteen-byte group, the target's has one.
  `LengthsAgree` says where they agree, and `SixteenByteGroupStalls` what happens elsewhere.

## Model

| member | source | states |
|---|---|---|
| Dp8573aDevice.Dp8573a.AdvanceOfflineMilliseconds | crates/se_device/src/dp8573a.rs:325-374 | for a running clock whose counters decode, the jump by division, calendar cycle, cyclic crossings and predicted edge leaves every register, flag, leap bit and save copy exactly as that many single milliseconds do, if and only if it is not one of the forged alarm flags of `AlarmBitOff`, and with those the alarm pending bit alone differs; a stopped clock, zero time, or any one counter that holds no number changes nothing; on every reachable state with time passing, the jump equals stepping if and only if every counter holds a number or stepping would change nothing, which `RtcStill.StepsChangeNothing` decides |
| RtcBulk.BulkIsStepping | crates/se_device/src/dp8573a.rs:498-603 | a state that agrees with the description of n milliseconds (time shown, configuration, copies, accumulated flags, alarm flag) is the state of n steps of the stepper |
| RtcBulk.BulkOverSeconds | crates/se_device/src/dp8573a.rs:349-374 | a jump that crosses seconds, with its one copy of the saves, one final alarm match and one set of events, is n steps of the stepper |
| RtcBulk.BulkWithinSecond | crates/se_device/src/dp8573a.rs:339-374 | a jump that stays within a second is n steps of the stepper, in the hundredths counter and in the periodic flags |
| RtcBulk.JumpMoves | crates/se_device/src/dp8573a.rs:672-700 | setting time of day by division and counting days modulo the 700-year cycle shows the clock that many NextSecond steps later and touches nothing else |
| RtcBulk.TargetsAreExact | crates/se_device/src/dp8573a.rs:353-366 | the closed form raises each second-based flag exactly when some second stepped through raises it |
| RtcBulk.EventsAreExact | crates/se_device/src/dp8573a.rs:353-366 | the flags of the closed form are the union of the flags of every step of the interval, hundredths included |
| RtcStill.StepsChangeNothing | crates/se_device/src/dp8573a.rs:331-333 | on every reachable state, decodable or not, a positive number of stepped milliseconds leaves the whole clock as it was if and only if, by its registers, it is whole turns of the counters that hold numbers (10 ms, a second, a minute, an hour or a day, and then whole turns of the date), every event flag that ends such a turn is up already, the periodic pending bit is up if one of them is enabled, and the alarm pending bit is up if the alarm comes on in a turn |
| RtcStill.AlarmTurnsExactly | crates/se_device/src/dp8573a.rs:509-542 | in whole turns of the counters the alarm comes on if and only if some selected field runs, every selected field that runs compares with a number it can show, every other selected field matches already, and a selected day and month that run go together |
| RtcStill.TenMillisecondsUnseen | crates/se_device/src/dp8573a.rs:331-333 | a running clock with undecodable hundredths and its flags unread: ten milliseconds stepped change nothing, so here giving up is right, and one millisecond stepped changes it, so here giving up loses a step |
| RtcStill.StuckIsReached | crates/se_device/src/dp8573a.rs:412-496 | four register writes and ten milliseconds lead from power-on to that clock |
| RtcTurns.MillisecondMoves | crates/se_device/src/dp8573a.rs:498-603 | one millisecond counts exactly the counters that hold numbers, up to the first that holds none, raises the events of those counts, and leaves bytes that hold no number and all other bits alone |
| RtcStill.QuietAlarm | crates/se_device/src/dp8573a.rs:509-542 | an alarm none of whose selected fields runs, as on a clock whose seconds never count, stays on or off whatever time passes |
| RtcTurns.DecodesIfAllHold | crates/se_device/src/dp8573a.rs:867-896 | the counters decode to a clock if and only if every one of them holds a number of its range, so that giving up is decided counter by counter |
| CounterView.ViewReturns | crates/se_device/src/dp8573a.rs:498-603 | such counters are back if and only if whole turns have passed, and with them, where days are counted, whole turns of the date |
| CounterView.DateReturnsExactly | crates/se_device/src/dp8573a.rs:580-612 | a date is back after a number of days if and only if its day holds no number, or the days are a multiple of 31, 1461 or 36525 (month, year or neither unknown) and of 7 where the weekday counts |
| CounterVisits.TimeVisits | crates/se_device/src/dp8573a.rs:498-578 | in whole turns, every time of the time counters that run is shown together with every date that the date counters ever show |
| CounterVisits.DateVisits | crates/se_device/src/dp8573a.rs:580-612 | running date counters show every day with every month that has it, leap day excepted, and with every weekday |
| RtcReach.StepperReaches | crates/se_device/src/dp8573a.rs:498-603 | after any number of steps the state is one of the closed description: counters show the later time, copies follow the counters, flags accumulate, the alarm flag is the match at the last second |
| RtcReach.ReachedOnce | crates/se_device/src/dp8573a.rs:498-603 | the description leaves nothing open: two states it describes for the same number of milliseconds are equal |
| RtcReach.AlarmShown | crates/se_device/src/dp8573a.rs:830-847 | the match computed from the registers is the match of the time the registers show |
| RtcReach.StepOverSecond | crates/se_device/src/dp8573a.rs:509-542 | a step that carries into the second advances clock, copies, alarm edge and flags of the description |
| RtcMotion.TickCountersMoves | crates/se_device/src/dp8573a.rs:509-560 | the register-level second, minute and hour carries show exactly the next second of the clock |
| RtcMotion.AdvanceDayMoves | crates/se_device/src/dp8573a.rs:580-612 | the register-level day, with its BCD fields and leap bits, shows exactly the calendar's next day |
| RtcMotion.AdvanceHourMoves | crates/se_device/src/dp8573a.rs:551-578 | the hour counter moves on in 12- and 24-hour mode and carries exactly at midnight |
| RtcMotion.DecodesIffShows | crates/se_device/src/dp8573a.rs:867-896 | the counters decode to a clock if and only if every field holds that clock's value |
| RtcAlarm.AlarmEdgeDuring | crates/se_device/src/dp8573a.rs:702-719 | the predictor answers true if and only if at some second of the interval the stepped alarm comes on, except exactly for the flags that `EdgeMisjudged` describes, up without a match |
| RtcAlarm.PredictionFails | crates/se_device/src/dp8573a.rs:702-719 | the prediction misses the stepped edge, or sees one that is not there, if and only if the flag is up without a match and the alarm first comes on at the very change that the scan leaves out and never after it, or comes on at the first second and the scan starts while it is still on |
| RtcAlarm.AlarmMatchesInRange | crates/se_device/src/dp8573a.rs:739-767 | the scan with bounds, whole-day shortcut and cap at one calendar cycle answers true if and only if some second of the range matches |
| RtcAlarm.AlarmTimeMatchesInRange | crates/se_device/src/dp8573a.rs:783-791 | the scan of part of a day answers true if and only if some second of it matches the time compare fields |
| RtcAlarm.DateAfter | crates/se_device/src/dp8573a.rs:739-767 | the day loop, reduced by the calendar cycle, gives the date that many days later |
| RtcAlarm.WholeDay | crates/se_device/src/dp8573a.rs:793-807 | some second of a whole day matches the time fields if and only if those fields decode within their limits |
| RtcAlarm.CycleIsEnough | crates/se_device/src/dp8573a.rs:739-767 | if no day of one calendar cycle matches, no later day does |
| RtcAlarm.FirstChange | crates/se_device/src/dp8573a.rs:721-737 | a matching alarm keeps matching up to the first change of a selected field and not at that change, so skipping to it loses nothing |
| RtcAlarm.StaysOn | crates/se_device/src/dp8573a.rs:702-737 | from a matching second the alarm has no edge before the first change of a selected field |
| RtcAlarm.EdgeIsMatch | crates/se_device/src/dp8573a.rs:702-719 | from a second where the alarm is off, there is an edge in the rest of the interval if and only if there is a match in it |
| RtcRun.RunKeepsInvariant | crates/se_device/src/dp8573a.rs:241-311 | on every run of reads, writes, time and battery restores of any state saved earlier in the same run, the alarm flag equals the current match, the prescaler phase is below a millisecond, the millisecond below ten, and every enabled save copy equals its counter on the counter's bits |
| RtcRun.WriteKeeps | crates/se_device/src/dp8573a.rs:412-496 | no register write, to whichever bank, breaks the run invariant |
| RtcRun.ApplyKeeps | crates/se_device/src/dp8573a.rs:226-311 | no operation of a run breaks the run invariant |
| RtcTime.AdvanceTimeAdds | crates/se_device/src/dp8573a.rs:296-311 | advancing by a and then by b is advancing by a + b, in every register and in the phase |
| RtcTime.AdvanceIs | crates/se_device/src/dp8573a.rs:296-311 | an advance is as many steps as whole milliseconds have gathered, and the rest is carried exactly |
| Dp8573aDevice.Dp8573a.Elapse | crates/se_device/src/dp8573a.rs:296-311 | the millisecond loop over the arrays leaves the state of AdvanceTime |
| Dp8573aDevice.Dp8573a.StepMillisecond | crates/se_device/src/dp8573a.rs:498-507 | in place, one millisecond of the specification |
| Dp8573aDevice.Dp8573a.StepDay | crates/se_device/src/dp8573a.rs:580-603 | in place, day, month, year, weekday and leap phase as the register-level day of the specification |
| Dp8573aDevice.Dp8573a.AdvanceClockSeconds | crates/se_device/src/dp8573a.rs:672-700 | the in-place jump leaves the registers of the specification's jump |
| Dp8573aDevice.Dp8573a.RestoreBatteryState | crates/se_device/src/dp8573a.rs:241-250 | any accepted state, own or forged, is taken over, and the time switched off passes as if stepped (not at all if the clock is stopped or undecodable) if and only if it is not a running clock of `AlarmBitOff`, whose alarm pending bit alone differs; a flag that stands for a match is never one |
| RtcBulk.ForgedFlagShows | crates/se_device/src/dp8573a.rs:241-250 | a clock at midnight with its alarm flag up and an alarm at minute one is such a clock: a minute switched off leaves out its alarm |
| Dp8573aDevice.Dp8573a.WriteRegister | crates/se_device/src/dp8573a.rs:412-441 | every write, by bank and register, leaves the state of the specification that WriteKeeps is about |
| Dp8573aDevice.Dp8573a.ReadRegister | crates/se_device/src/dp8573a.rs:389-410 | a read returns the value, and clears the flags, of the specification that the `RtcAccess` rows are about |
| RtcAccess.LastWrittenIsRead | crates/se_device/src/dp8573a.rs:389-441 | on every run of reads, writes and time, a counter, compare register, RAM or control register reads as it was last written, in every bit that neither counting nor copying changes, until something is written to it again in its bank |
| RtcAccess.StaysAsWritten | crates/se_device/src/dp8573a.rs:389-441 | on every run that does not write a register in its bank, its bits that are no counter, copy or flag read as at the start, whatever else is written and however time passes |
| RtcAccess.WriteThenRead | crates/se_device/src/dp8573a.rs:389-441 | a byte written to a counter, compare register, RAM or a control register of the selected bank is read back, two bits of register 0x0d, and nothing of the unused registers |
| RtcAccess.WriteThenReadSave | crates/se_device/src/dp8573a.rs:433-439 | a save register reads as written, with the bits of its counter if copies are made |
| RtcAccess.WriteThenReadStatus | crates/se_device/src/dp8573a.rs:443-448 | the upper bits of the main status read as written, and a pending bit goes down if and only if a one is written to it |
| RtcAccess.WriteThenReadFlags | crates/se_device/src/dp8573a.rs:419-423 | the periodic flag register keeps its test bit as written and its flags as they were, and bit 6 selects single supply |
| RtcAccess.WriteElsewhere | crates/se_device/src/dp8573a.rs:412-496 | a write changes what any other register of either bank reads as in the copies of counters and the oscillator flag at most |
| RtcAccess.WriteStartsAndStops | crates/se_device/src/dp8573a.rs:450-467 | only the mode register starts and stops the clock; a stop drops the part of a hundredth, a start clears the oscillator flag |
| RtcAccess.CountersReadTheTime | crates/se_device/src/dp8573a.rs:867-896 | on a clock that decodes, the counters read as the decimal digits of its time and date, in both hour modes |
| RtcAccess.StatusShowsInterrupt | crates/se_device/src/dp8573a.rs:376-393 | bit 0 of the main status reads as one if and only if a periodic interrupt is pending or an alarm is and its interrupt is enabled |
| RtcAccess.FlagsSinceRead | crates/se_device/src/dp8573a.rs:259-267 | on every run, each event flag reads as one if and only if its event has happened while time passed since the flags were last read |
| Bcd.DecodeIffEncode | crates/se_device/src/dp8573a.rs:975-983 | BCD bytes and numbers below one hundred correspond one to one |
| Bcd.FieldRoundTrip | crates/se_device/src/dp8573a.rs:993-1008 | a masked field decodes to a value if and only if it holds that value |
| Bcd.WriteField | crates/se_device/src/dp8573a.rs:668-670 | storing a field makes it decode to the value and leaves all other bits |
| Bcd.HourRoundTrip | crates/se_device/src/dp8573a.rs:942-969 | in both hour modes a byte decodes to an hour if and only if it is the encoding of that hour |
| Bcd.WriteHour12 | crates/se_device/src/dp8573a.rs:562-578 | storing a 12-hour value with its AM/PM bit decodes to the hour meant |
| Calendar.CycleIsIdentity | crates/se_device/src/dp8573a.rs:913-930 | from every valid date, 700 * 365 + 175 days later is the same date, weekday and leap phase included |
| Calendar.DaysModuloCycle | crates/se_device/src/dp8573a.rs:697-699 | reducing a number of days modulo the cycle does not change the date reached |
| Calendar.MonthChanges | crates/se_device/src/dp8573a.rs:721-737 | the month counter keeps its value until the month has run out and differs then |
| ClockTime.SecondsLaterLands | crates/se_device/src/dp8573a.rs:672-700 | a number of single seconds lands on the remainder of the day, that many whole days on |
| ClockTime.CrossingIsExact | crates/se_device/src/dp8573a.rs:971-973 | the division test for crossing a multiple holds if and only if a multiple lies in the interval |
| Hpc1Device.Hpc1.Elapse | crates/se_device/src/hpc1.rs:1435-1456 | whole seconds split off and factors reduced first, the counter becomes the exact tick total modulo 2^24, the phase the exact remainder, and the Ethernet channel gets the elapsed time with the exact ticks in it, also where the code passes the all-ones count |
| HpcClock.ClockAdds | crates/se_device/src/hpc1.rs:1435-1456 | counter, phase and timer do not depend on how an interval is cut into calls |
| HpcClock.CounterIsExact | crates/se_device/src/hpc1.rs:1443-1448 | the counter from reduced seconds, reduced frequency and reduced partial ticks is the exact one |
| HpcClock.WholeSecondExpires | crates/se_device/src/hpc1.rs:1450-1454 | for every timer value, any interval of a second or more has the effect of the all-ones tick count |
| HpcClock.ExpiresAtDeadline | crates/se_device/src/hpc1.rs:807-814 | a running timer has expired after an interval if and only if the interval reaches the deadline computed by rounding up |
| EthernetDevice.EthernetChannel.AdvanceTimerBy | crates/se_device/src/hpc1.rs:376-387 | in place, a one-shot countdown that stops at expiry |
| EthernetRun.RunsConform | crates/se_device/src/hpc1.rs:479-784 | on every run of guest writes, frames, served requests with any answers, controller reports and time, every request of either engine is one its history allows, and every published frame has the overflow, interrupt and ACTIVE bits its size and buffer call for |
| EthernetRun.StepKeeps | crates/se_device/src/hpc1.rs:503-784 | one step of any kind is allowed and keeps engine and history in agreement, whichever engine is served |
| EthernetRun.StartAgrees | crates/se_device/src/hpc1.rs:309-351 | a fresh channel agrees with the empty history |
| EthernetReceive.RequestIsAllowed | crates/se_device/src/hpc1.rs:522-558 | the next store is the next bytes of frame and status trailer at the next 28-bit address after the two offset bytes, and the completion comes only when all that fits is stored and carries the exact residual |
| EthernetReceive.AnswerAgrees | crates/se_device/src/hpc1.rs:620-742 | descriptor, stored bytes or failure leave the engine where the history says |
| EthernetReceive.CompletionTells | crates/se_device/src/hpc1.rs:531-540 | at the completion what is stored is the frame up to the capacity, and overflow holds if and only if the frame did not fit |
| EthernetReceive.RequestsFinish | crates/se_device/src/hpc1.rs:522-558 | an accepted frame always has a next request, and every answer brings it nearer to its end |
| EthernetSend.PacketRuns | crates/se_device/src/hpc1.rs:560-699 | for every memory and every packet of descriptors in it, an active engine at the first descriptor makes a computed number of requests: reads only, and at last Transmit of what was staged followed by the buffers in order |
| EthernetSend.ChainRuns | crates/se_device/src/hpc1.rs:418-784 | every packet of a chain is sent, in order, whatever successes are reported, and the channel is idle at its end with the last packet's first descriptor recorded |
| EthernetSend.PacketUnderLoad | crates/se_device/src/hpc1.rs:503-784 | while frames arrive and are stored, two turns of the memory port for each request are enough to send the packet, once and unchanged |
| EthernetSend.SentUnderLoad | crates/se_device/src/hpc1.rs:503-516 | an engine on its way to a packet sends it, and nothing else, within twice as many turns as it has requests left |
| EthernetSend.AlwaysAsks | crates/se_device/src/hpc1.rs:560-617 | an engine at a descriptor, in a buffer, with a packet ready or with a fault, and nothing on the wire, always has a request |
| EthernetSend.StartReads | crates/se_device/src/hpc1.rs:418-435 | START on an idle channel sets the engine to the first descriptor of a packet |
| EthernetSend.ReportTells | crates/se_device/src/hpc1.rs:749-784 | after a report the next descriptor is fetched if and only if the packet succeeded and did not end its chain; a success records the packet's first descriptor, and a requested interrupt, or an error that asks for one, is set going |
| EthernetSend.InterruptComes | crates/se_device/src/hpc1.rs:827-845 | the interrupt comes exactly when its delay has passed, one clock cycle after the report |
| EthernetSend.DescriptorBytes | crates/se_device/src/hpc1.rs:640-672 | counts, flags and addresses of a descriptor by the bytes and bits they lie in |
| EthernetSignals.PortIsBusy | crates/se_device/src/hpc1.rs:620-627 | after an answer the memory port asks for nothing for exactly one cycle a word |
| EthernetSignals.PortIsBusyWriting | crates/se_device/src/hpc1.rs:702-704 | and so it is after a store |
| EthernetSignals.ControlIsWritten | crates/se_device/src/hpc1.rs:450-463 | reset and loopback are as written, interrupt and overflow are cleared by ones, and a rising reset alone starts the channel afresh |
| EthernetSignals.FrameIsCaptured | crates/se_device/src/hpc1.rs:479-495 | the status of every frame is kept without losing ACTIVE, and the frame is taken if and only if the channel is active, idle and not in reset and the frame not too long |
| EthernetSignals.ReceiveInterruptComes | crates/se_device/src/hpc1.rs:827-843 | a stored frame that waits for its interrupt raises it exactly when the timer has expired |
| EthernetSignals.TimeIsQuiet | crates/se_device/src/hpc1.rs:827-843 | without a waiting interrupt, time changes the timer and the port's delay only |
| EthernetSignals.AdvanceAdds | crates/se_device/src/hpc1.rs:827-845 | the channel does not see how an interval is cut into calls |
| EthernetSignals.TimerCounts | crates/se_device/src/hpc1.rs:376-387 | the timer counts ticks down to zero, once |
| EthernetSignals.TimerIsWritten | crates/se_device/src/hpc1.rs:368-374 | a timer set to zero has expired |
| EthernetSignals.CycleIsRoundedUp | crates/se_device/src/hpc1.rs:110-112 | the cycle is a clock period rounded up to whole attoseconds |
| EthernetSignals.PacketWaits | crates/se_device/src/hpc1.rs:599-615 | a packet that is ready is submitted exactly when the controller is ready |
| EthernetSignals.DescriptorsAreShown | crates/se_device/src/hpc1.rs:640-686 | the pointer registers show the descriptor just read and the next one |
| EthernetSignals.ReceiveStatusIsWritten | crates/se_device/src/hpc1.rs:437-448 | stopping the receiver drops its frame, and another status leaves it at work |
| EthernetSignals.EnginesTakeTurns | crates/se_device/src/hpc1.rs:503-516 | the engine whose turn it is goes first, the other if it asks for nothing, and no turn is lost |
| EthernetSignals.BufferInterrupts | crates/se_device/src/hpc1.rs:579-598 | a descriptor inside a packet gets its interrupt one cycle after its buffer if and only if it asks for it |
| EthernetSignals.ReceiveFailureStops | crates/se_device/src/hpc1.rs:636-700 | a failed read or store, or a descriptor the channel does not own, clears ACTIVE, keeps the other status bits and drops the frame |
| EthernetSignals.TransmitFailureReports | crates/se_device/src/hpc1.rs:560-700 | a failed read clears ACTIVE and drops what was staged, and the next request is an underflow |
| EthernetTransmit.RequestIsAllowed | crates/se_device/src/hpc1.rs:560-617 | a packet is submitted only when the wire is free and its descriptors are read to the end with end-of-packet on the last one only; the packet is the staged bytes, and exactly the fragments if and only if no packet was abandoned |
| EthernetTransmit.AnswerAgrees | crates/se_device/src/hpc1.rs:620-699 | descriptors and fragments, and the failure of either, leave the engine where the history says |
| EthernetTransmit.StatusAgrees | crates/se_device/src/hpc1.rs:418-435 | STOP drops what is staged and detaches the packet on the wire; START begins a new packet |
| EthernetTransmit.CompletionAgrees | crates/se_device/src/hpc1.rs:749-784 | a controller report frees the wire, and without a packet on it gives the present packet up |
| EthernetTransmit.DetachedCompletion | crates/se_device/src/hpc1.rs:763-772 | the report of a packet that STOP detached changes status, wire and interrupt delay only, and ACTIVE stays as it is if and only if the status bit 6 is clear or ACTIVE is set |
| EthernetTransmit.StaleBytesAreSent | crates/se_device/src/hpc1.rs:583-591 | a chain that ends without end-of-packet leaves its bytes staged, and the next packet carries them in front |
| EthernetDevice.EthernetChannel.Next | crates/se_device/src/hpc1.rs:503-516 | in place, alternating priority and the request of NextRequest |
| EthernetDevice.EthernetChannel.NextReceiveRequest | crates/se_device/src/hpc1.rs:522-558 | in place, the receive request and the state it leaves |
| EthernetDevice.EthernetChannel.NextTransmitRequest | crates/se_device/src/hpc1.rs:560-617 | in place, the transmit request and the state it leaves |
| EthernetDevice.EthernetChannel.ReadArrived | crates/se_device/src/hpc1.rs:620-687 | in place, the completion of a read, short answers and over-long frames included |
| EthernetDevice.EthernetChannel.WriteDone | crates/se_device/src/hpc1.rs:702-742 | in place, the completion of a write |
| EthernetDevice.EthernetChannel.TransmitDone | crates/se_device/src/hpc1.rs:749-784 | in place, the completion of a packet, attached or detached |
| EthernetDevice.EthernetChannel.SetTransmitStatus | crates/se_device/src/hpc1.rs:418-435 | in place, START and STOP of the transmitter |
| EthernetDevice.EthernetChannel.SetControl | crates/se_device/src/hpc1.rs:450-463 | in place, clear-by-one bits and the reset that starts the data path afresh |
| EthernetDevice.EthernetChannel.ReceiveFrame | crates/se_device/src/hpc1.rs:479-495 | in place, a frame is taken or dropped, the status captured in any case |
| EthernetDevice.EthernetChannel.Elapse | crates/se_device/src/hpc1.rs:827-843 | in place, delays run down and interrupts are raised when due |
| Words.WordRoundTrip | crates/se_device/src/hpc1.rs:549-557 | a word written big-endian reads back |
| GraphicsDma.FragmentationDoesNotMatter | crates/se_device/src/pic1.rs:194-243 | for a channel with nothing due, which every service leaves, and any interval that a duration can express, advancing by a and serving, then by b and serving, makes the same requests and leaves the same state as advancing by a + b and serving once, for every board |
| GraphicsDma.AnySplitIsOneInterval | crates/se_device/src/pic1.rs:194-243 | the same for any number of intervals |
| GraphicsDma.ServiceReadies | crates/se_device/src/pic1.rs:194-243 | every service leaves a channel with nothing due, and with nothing banked if it is active |
| GraphicsDma.FullBankShowsTheSplit | crates/se_device/src/pic1.rs:194-210 | with the bank full and a chain that never ends, the bank saturates and the two ways of splitting end differently |
| GraphicsDma.CompletionUsesCredit | crates/se_device/src/pic1.rs:318-355 | a completion ends the chain, leaves a delay, or uses at least one clock cycle of credit |
| GraphicsDma.ServingEnds | crates/se_device/src/pic1.rs:212-243 | serving terminates even on a chain of descriptors that loops |
| GraphicsDma.RequestsAreBounded | crates/se_device/src/pic1.rs:351-355 | every request after the first in one service costs a cycle of credit |
| GraphicsDma.StaysSettled | crates/se_device/src/pic1.rs:155-210 | every transition keeps that an active channel has no delay or no credit |
| GraphicsDma.LinesInOrder | crates/se_device/src/pic1.rs:318-339 | as long as transfers succeed, the lines of a descriptor are requested in order, one stride apart on each side, and time pays for each |
| GraphicsDma.DescriptorInOrder | crates/se_device/src/pic1.rs:318-339 | after its last line a descriptor moves on to the next one or ends the chain, and after the first failing line it ends the chain with the error; no other line is requested |
| GraphicsLines.DescriptorRuns | crates/se_device/src/pic1.rs:245-339 | from the words of a descriptor to its requests: in mode 0 from memory to GIO and in mode 2 the other way, one line more than the low half of the stride word says, the k-th at the base plus k signed steps modulo 2^32 on each side, each rounded up to words, up to the last line or the first that fails; then the chain ends or goes on as bit 15 says |
| GraphicsLines.ChainRuns | crates/se_device/src/pic1.rs:212-339 | a chain of descriptors asks for all lines of all of them, in order, and for nothing else, and stops without an error |
| GraphicsLines.LoadedLines | crates/se_device/src/pic1.rs:245-316 | the requests of a loaded descriptor are the lines its words describe |
| GraphicsLines.SameSteps | crates/se_device/src/pic1.rs:284-300 | a 32-bit increment that stands for a signed step leads to the same addresses |
| GraphicsLines.DescriptorIsAskedFor | crates/se_device/src/pic1.rs:216-231 | a descriptor is asked for if and only if its twenty bytes are whole words in one page, and otherwise the chain ends with an error |
| GraphicsLines.OtherModesEnd | crates/se_device/src/pic1.rs:274-283 | a descriptor in another mode, or none, ends the chain with an error and moves nothing |
| GraphicsLines.StartIsDue | crates/se_device/src/pic1.rs:155-181 | a started channel asks for its descriptor exactly five cycles later, or five cycles after the sync it waits for |
| GraphicsLines.LineIsDue | crates/se_device/src/pic1.rs:318-366 | the next line is due exactly when the time of a line has passed, one cycle for four bytes and one at least, time left over included |
| GraphicsLines.DescriptorRoundTrip | crates/se_device/src/pic1.rs:252-264 | five words in memory, most significant byte first, are the descriptor they were |
| GraphicsLines.StartWaitsForIdle | crates/se_device/src/pic1.rs:155-158 | a start of a channel at work does nothing |
| GraphicsLines.CycleIsRoundedUp | crates/se_device/src/pic1.rs:41-42 | the cycle is a clock period rounded up to whole attoseconds |
| GraphicsDma.AddressClosedForm | crates/se_device/src/pic1.rs:325-331 | the n-th line address is base plus n increments in 32-bit arithmetic |
| GraphicsDma.SignExtend12 | crates/se_device/src/pic1.rs:368-370 | the extension keeps the low twelve bits and lies within signed 12-bit range |
| GraphicsDma.GioTransferBytes | crates/se_device/src/pic1.rs:358-360 | the least multiple of four that holds the line |
| GraphicsDmaDevice.GraphicsDmaChannel.Elapse | crates/se_device/src/pic1.rs:194-210 | in place, time runs the delay down and banks the rest |
| GraphicsDmaDevice.GraphicsDmaChannel.Next | crates/se_device/src/pic1.rs:212-243 | in place, the request of the stage, or the error stop |
| GraphicsDmaDevice.GraphicsDmaChannel.DescriptorArrived | crates/se_device/src/pic1.rs:245-316 | in place, the twenty bytes of a descriptor are loaded or refused by its mode; what they set up is `GraphicsLines.DescriptorRuns` |
| GraphicsDmaDevice.GraphicsDmaChannel.LineTransferred | crates/se_device/src/pic1.rs:318-339 | in place, the next line, the next descriptor or the end |
| GraphicsDmaDevice.GraphicsDmaChannel.ApplyDelay | crates/se_device/src/pic1.rs:351-355 | in place, banked time pays for a new delay |
| CharacterTiming.NoDrift | crates/se_device/src/z85230.rs:687-710 | with the remainder carried, the durations of n characters add up to the exact total rounded down |
| CharacterTiming.DurationPositive | crates/se_device/src/z85230.rs:687-710 | a character no shorter than its clock takes some time |
| SerialChannel.AdvanceAdds | crates/se_device/src/z85230.rs:732-761 | advancing by a and then b gives the output, FIFOs, loopback and latches of a + b |
| SerialChannel.FirstInFirstOut | crates/se_device/src/z85230.rs:687-761 | output followed by what is on the line and queued is what was queued before, in order |
| SerialChannel.BusyStaysExact | crates/se_device/src/z85230.rs:732-761 | while a character is on the line, the n-th character since the line became busy ends at the exact total of n characters |
| SerialChannel.IdleWhenSent | crates/se_device/src/z85230.rs:687-761 | the line goes idle exactly when the exact total of all its characters has passed, and then all of them have come out |
| SerialChannel.NoDriftOnTheLine | crates/se_device/src/z85230.rs:687-803 | the time of the end of the n-th character is the exact time rounded down, and the remainder is the carried rest |
| SerialChannel.CharactersTakeTime | crates/se_device/src/z85230.rs:763-803 | at any 64-bit clock and any configuration a character lasts at least one attosecond |
| SerialChannel.StartIsBusy | crates/se_device/src/z85230.rs:687-710 | starting an idle line begins an exact run of characters |
| SerialChannel.WritingStartsBusy | crates/se_device/src/z85230.rs:212-222 | a byte written to an idle line begins an exact run of characters |
| SerialChannel.WritingStaysBusy | crates/se_device/src/z85230.rs:212-222 | writing to the data port of a busy line does not disturb the run |
| SerialRun.RunKeeps | crates/se_device/src/z85230.rs:212-222 | on every run of bytes written to the data port, characters received, reads, error resets and time, what came out and what is still to come are what was accepted, in order, no accepted byte waits while the line is idle, and a locked receive FIFO holds a special character |
| SerialRun.RunOnTime | crates/se_device/src/z85230.rs:524-761 | on every run during which the line is never idle, the character on the line ends at the exact total since the line became busy |
| SerialRun.RunFromIdle | crates/se_device/src/z85230.rs:212-222 | so do the characters from the first byte written to an idle line |
| SerialRun.GoesIdleOnTime | crates/se_device/src/z85230.rs:687-761 | the line goes idle exactly at the rounded-down exact time of all that was accepted, and all of it has come out |
| SerialFrame.FrameLasts | crates/se_device/src/z85230.rs:763-803 | a character lasts a start bit, the data bits, parity and stop bits that the write registers ask for, each of twice the time constant plus two clock periods times the factor, and is sent if and only if transmitter, clock source, generator and stop bits are set |
| SerialFrame.SomeLine | crates/se_device/src/z85230.rs:763-803 | every setting with stop bits asks for one such line |
| SerialReceive.StepFollows | crates/se_device/src/z85230.rs:524-650 | what has left the receive FIFO and what is in it are the characters that came, from the line or looped back, in order, a ninth one taking the place of the last with an overrun |
| SerialReceive.LoopbackReturns | crates/se_device/src/z85230.rs:732-761 | in local loopback with the receiver on, the characters that come back are those put out |
| SerialReceive.ReadTakesOldest | crates/se_device/src/z85230.rs:556-579 | a read gives the oldest character, and takes it unless it is special in a mode that stops there or the FIFO is locked already |
| SerialReceive.ResetUnlocks | crates/se_device/src/z85230.rs:661-673 | resetting the errors unlocks the FIFO, drops the character at which it stops, and forgets the errors |
| SerialReceive.ReceiveRequests | crates/se_device/src/z85230.rs:598-655 | by mode, a receive interrupt is requested for the first character while armed, for enough characters, or for special ones |
| SerialReceive.TransmitRequests | crates/se_device/src/z85230.rs:675-730 | the transmitter asks for more at the start and at the end of a character whose FIFO is empty, or has room, and a byte written takes the request back |
| SerialReceive.EmptyLineAsks | crates/se_device/src/z85230.rs:732-761 | a line with its interrupt enabled that runs empty ends up asking for more |
| SerialReceive.RunLog | crates/se_device/src/z85230.rs:524-650 | so it is on every run of characters, reads, resets and time |
| SerialReceive.ErrorsAreKept | crates/se_device/src/z85230.rs:556-579 | overrun and parity errors of a character that is read are kept, and no other bits |
| SerialReceive.EmptyReadsZero | crates/se_device/src/z85230.rs:556-559 | an empty FIFO reads as zero and does not change |
| SerialReceive.FirstCharacterAsksOnce | crates/se_device/src/z85230.rs:566-579 | in the first-character mode a read disarms the request |
| SerialReceive.OthersStayArmed | crates/se_device/src/z85230.rs:566-579 | in the other modes it stays armed unless the FIFO locks |
| SerialDevice.ChannelState.Elapse | crates/se_device/src/z85230.rs:732-761 | the loop over the ring FIFOs gives the output and state of AdvanceTime |
| SerialDevice.ChannelState.WriteByte | crates/se_device/src/z85230.rs:675-685 | in the ring, an accepted byte is appended, a full FIFO refuses |
| SerialDevice.ChannelState.WritePort | crates/se_device/src/z85230.rs:212-222 | in the ring, a byte accepted by the data port is appended and starts an idle line at once |
| SerialDevice.ChannelState.Read | crates/se_device/src/z85230.rs:556-579 | in the ring, the oldest character is taken and the locks and arming follow |
| SerialDevice.ChannelState.ReceiveCharacterValue | crates/se_device/src/z85230.rs:532-548 | in the ring, a character is appended, or replaces the newest with an overrun |
| SerialDevice.ChannelState.ReceiveExternalCharacter | crates/se_device/src/z85230.rs:524-530 | in the ring, a character from the line is taken if the receiver is on and not looped back |
| Ring.Push | crates/se_device/src/z85230.rs:675-685 | storing at the tail of a ring appends to the queue it holds |
| Ring.Pop | crates/se_device/src/z85230.rs:687-710 | moving the head on drops the oldest element |
| Ring.ReplaceLast | crates/se_device/src/z85230.rs:532-548 | storing at the last place replaces the newest element |
| Interrupts.AcknowledgementsNest | crates/se_device/src/z85230.rs:306-362 | on every run the unretired acknowledgements have strictly rising urgency in the order made, they are the flags under service, and the next one retired is the newest |
| Interrupts.RetiresNewest | crates/se_device/src/z85230.rs:346-354 | resetting the highest interrupt under service retires the acknowledgement made last |
| Interrupts.OutputIsAboveService | crates/se_device/src/z85230.rs:322-344 | the output is up if and only if interrupts are enabled and some requesting source is more urgent than everything under service |
| Interrupts.StepNests | crates/se_device/src/z85230.rs:224-320 | no operation, channel and chip resets included, breaks the nesting |
| SerialInterrupts.VectorAcknowledges | crates/se_device/src/z85230.rs:224-238 | reading the vector puts under service the one request above all other requests and all service, if the master control says so, and nothing else |
| SerialInterrupts.MasterIsWritten | crates/se_device/src/z85230.rs:306-320 | bits 7 and 6 reset channels A and B and retire exactly their sources, and the lower six bits are kept |
| SerialInterrupts.SourcesAre | crates/se_device/src/z85230.rs:334-344 | in order of urgency, receive and transmit of channel A, then of channel B |
| SerialInterrupts.ResetIsQuiet | crates/se_device/src/z85230.rs:447-465 | a channel that was reset holds nothing, sends nothing and asks for nothing |
| Interrupts.Z85230.HighestPendingInterrupt | crates/se_device/src/z85230.rs:322-332 | the loop finds the most urgent request above everything under service, if there is one |
| Interrupts.Z85230.ResetHighestInterruptUnderService | crates/se_device/src/z85230.rs:346-354 | the loop clears the most urgent flag and no other |
| Interrupts.Z85230.WriteMasterInterruptControl | crates/se_device/src/z85230.rs:306-320 | the master register and the resets it commands |
| Mouse.MotionIsConserved | crates/se_device/src/sgi_mouse.rs:96-228 | on every run the packets made and the backlog carry, button epoch by button epoch, exactly the motion requested, and the bytes sent are those of the packets in order |
| Mouse.MaterializeConserves | crates/se_device/src/sgi_mouse.rs:191-228 | making a packet takes its samples from the first segment and puts the remainder back in front |
| Mouse.AdvanceConserves | crates/se_device/src/sgi_mouse.rs:136-152 | time moves motion from backlog to packets without changing any epoch's sum |
| Mouse.AdvanceSends | crates/se_device/src/sgi_mouse.rs:136-189 | the bytes put out are those of the packets made, in order, none lost and none twice |
| Mouse.AdvanceAdds | crates/se_device/src/sgi_mouse.rs:136-152 | advancing by a and then b gives the bytes, packets and state of a + b |
| Mouse.Drains | crates/se_device/src/sgi_mouse.rs:136-228 | enough time empties any backlog, although remainders are pushed to the front |
| Mouse.PacketShrinksBacklog | crates/se_device/src/sgi_mouse.rs:191-228 | every packet makes the backlog's total displacement or its length smaller |
| Mouse.StepConserves | crates/se_device/src/sgi_mouse.rs:96-152 | no move, button change or passing of time breaks conservation |
| Mouse.PacketSays | crates/se_device/src/sgi_mouse.rs:191-228 | the five bytes of a packet say the buttons and both split samples of its motion |
| Mouse.SamplesInOrder | crates/se_device/src/sgi_mouse.rs:191-237 | a packet has a header with the buttons low when pressed, then x and y as far as a signed byte goes, then the nearest to what is left of each |
| MouseTiming.BytesOnTime | crates/se_device/src/sgi_mouse.rs:136-189 | from an idle line, the bytes out are those whose exact frames have ended, and the one on the line ends at the exact total |
| MouseTiming.ByteRate | crates/se_device/src/sgi_mouse.rs:166-189 | n bytes take n / 480 seconds, rounded down |
| MouseTiming.MovesJoin | crates/se_device/src/sgi_mouse.rs:96-116 | any number of moves under the same buttons are one segment with their sums, as long as the sums on the way fit 64 bits |
| MouseTiming.ButtonFollows | crates/se_device/src/sgi_mouse.rs:119-133 | the button asked for follows and no other does, and only a change is sent |
| SgiMouseDevice.SgiMouse.Moved | crates/se_device/src/sgi_mouse.rs:96-116 | in place, motion joins the last segment of the same buttons unless a sum would overflow |
| SgiMouseDevice.SgiMouse.ButtonChanged | crates/se_device/src/sgi_mouse.rs:119-133 | in place, a changed button starts a new segment, an unchanged one does nothing |
| SgiMouseDevice.SgiMouse.Materialize | crates/se_device/src/sgi_mouse.rs:191-220 | in place, the packet of the first segment |
| SgiMouseDevice.SgiMouse.Advance | crates/se_device/src/sgi_mouse.rs:136-152 | the loop gives the bytes and the state of AdvanceTime |
| Eeprom.WriteThenRead | crates/se_device/src/nmc93cs46.rs:105-216 | for every content, address, value and number of leading zeros, enable, write and read through the pins returns the value and changes no other word |
| Eeprom.WriteSession | crates/se_device/src/nmc93cs46.rs:134-216 | a write session stores if and only if writing is enabled and all sixteen data bits have come |
| Eeprom.ReadSession | crates/se_device/src/nmc93cs46.rs:134-185 | a read session shows the stored word most significant bit first and changes nothing |
| Eeprom.EnableSession | crates/se_device/src/nmc93cs46.rs:187-216 | the enable command enables writing and changes no word |
| Eeprom.OutputOverRuns | crates/se_device/src/nmc93cs46.rs:105-185 | on every pin sequence the output is low while the chip is not selected, and high while it takes a command or data |
| Eeprom.PinsAreFollowed | crates/se_device/src/nmc93cs46.rs:105-132 | a pin change without a rising edge follows the pins, forgets the transfer of a chip deselected, and nothing else |
| Eeprom.DisableSession | crates/se_device/src/nmc93cs46.rs:187-216 | the disable command disables writing and changes no word |
| Eeprom.DisabledWrite | crates/se_device/src/nmc93cs46.rs:134-216 | after it a write of any word stores nothing |
| Eeprom.OtherSession | crates/se_device/src/nmc93cs46.rs:187-216 | a command that is none of the four, whatever follows it, changes neither words nor the enabling |
| Eeprom.DisabledKeepsWords | crates/se_device/src/nmc93cs46.rs:105-216 | whatever is done to the pins, no word changes while writing stays disabled |
| Eeprom.LeadingZeros | crates/se_device/src/nmc93cs46.rs:134-150 | zeros before the start bit have no effect, however many |
| Eeprom.Nmc93cs46.Drive | crates/se_device/src/nmc93cs46.rs:105-126 | in place, selection, edges and output of one change of the pins |
| Eeprom.Nmc93cs46.ClockRisingEdge | crates/se_device/src/nmc93cs46.rs:134-185 | in place, one rising edge of the clock |
| Eeprom.Nmc93cs46.Decode | crates/se_device/src/nmc93cs46.rs:187-216 | in place, a whole command |
| ScsiRun.RunKeepsSound | crates/se_device/src/scsi.rs:740-1808 | every sequence of attachments, media changes, commands, transfers, information bytes, cancellations and restored snapshots keeps that target and bus agree on every medium, that an active transfer lies inside it, and that a connection belongs to a present target |
| ScsiRun.MediaAgree | crates/se_device/src/scsi.rs:1206-1458 | read off for any run from an empty bus: the drive's recorded size is its storage's, an active storage transfer has bytes left and its whole range in the medium, an immediate one has unread bytes |
| ScsiRun.StepKeepsSound | crates/se_device/src/scsi.rs:1159-1808 | no single operation breaks the invariant |
| ScsiRun.CommandKeeps | crates/se_device/src/scsi.rs:1330-1389 | a command, whatever its bytes, keeps it |
| ScsiRun.GuestEjectKeeps | crates/se_device/src/scsi.rs:1391-1413 | the guest's ejection empties storage and target together |
| ScsiRun.ReplyFits | crates/se_device/src/scsi.rs:916-954 | a reply to messages is never longer than the messages |
| ScsiTargets.ExecuteFits | crates/se_device/src/scsi_cdrom.rs:376-426 | every command of disk or drive plans a storage range inside the medium it believes to have, and never changes that belief itself |
| ScsiTargets.DiskFits | crates/se_device/src/scsi_disk.rs:121-165 | every disk command plans a range inside its blocks, six-byte and ten-byte forms; which range is `ScsiBlocks.PlanNames` |
| ScsiBlocks.PlanNames | crates/se_device/src/scsi_disk.rs:121-165 | on a ready target a READ or WRITE plans exactly the bytes of the blocks named by the big-endian numbers in the command, is done for none, and is refused with its reason for blocks that are not there |
| ScsiBlocks.ReadBrings | crates/se_device/src/scsi_cdrom.rs:250-280 | after a READ on disk or CD-ROM the bytes to come are the blocks of the medium that the command names, and taking them leaves the bus as it was with status Good |
| ScsiBlocks.WriteTakes | crates/se_device/src/scsi_disk.rs:150-165 | a WRITE takes as many bytes as its blocks have, and giving them leaves the bus with those bytes over that range and nothing else changed |
| ScsiBlocks.OverwrittenBlocks | crates/se_device/src/scsi.rs:1551-1621 | so the blocks written hold the payload, and every other block is as it was |
| ScsiBlocks.ReadInChunks | crates/se_device/src/scsi.rs:1733-1800 | chunks of any sizes, rejected ones among them, bring the blocks named |
| ScsiBlocks.WritesStore | crates/se_device/src/scsi.rs:1551-1621 | after any number of WRITEs cut into any chunks, every block holds what was stored there last, or what it held before |
| ScsiBlocks.ReadGivesLatest | crates/se_device/src/scsi.rs:1330-1800 | and a READ in any chunks gives in each of its blocks what was stored there last |
| ScsiReplies.AttentionIsGivenOnce | crates/se_device/src/scsi_cdrom.rs:376-388 | a unit attention refuses the next command but INQUIRY and REQUEST SENSE, once, with its sense |
| ScsiReplies.SenseIsTold | crates/se_device/src/scsi_disk.rs:60-64 | REQUEST SENSE tells the last reason in fixed format and forgets it |
| ScsiReplies.CapacityIsTold | crates/se_device/src/scsi_cdrom.rs:233-248 | READ CAPACITY gives last block and block size, which make up the whole medium |
| ScsiReplies.BlockSizeIsTold | crates/se_device/src/scsi_cdrom.rs:111-119 | MODE SENSE tells the block size |
| ScsiReplies.BlockSizeIsSet | crates/se_device/src/scsi_cdrom.rs:121-147 | MODE SELECT sets the block size if and only if the list asks for one of the two, and otherwise says why not |
| ScsiReplies.GuestEjects | crates/se_device/src/scsi.rs:1391-1413 | a guest ejects an unlocked drive, which then has no medium and says so, and a locked one refuses |
| ScsiReplies.HostEjects | crates/se_device/src/scsi.rs:1289-1322 | the host ejects a drive if and only if it has a medium, the bus is free, and the drive is unlocked or forced; the next command is told |
| ScsiReplies.HostInserts | crates/se_device/src/scsi.rs:1243-1276 | a medium goes into an empty drive if and only if the bus is free and the medium valid; the next command is told |
| ScsiReplies.MalformedIsRefused | crates/se_device/src/scsi_disk.rs:207-245 | a command that is unknown, empty or too short is refused, and the sense tells which |
| ScsiReplies.UnreadyRefuses | crates/se_device/src/scsi_disk.rs:133-153 | a target that is not ready refuses to read, write and tell its capacity, with the reason |
| ScsiReplies.KindIsTold | crates/se_device/src/scsi_cdrom.rs:97-109 | INQUIRY tells a disk from a removable CD-ROM drive |
| ScsiReplies.TocIsTold | crates/se_device/src/scsi_cdrom.rs:185-211 | READ TOC tells of one data track, by block or by minute |
| ScsiReplies.FailureIsTold | crates/se_device/src/scsi.rs:1733-1808 | storage that fails ends the transfer with nothing moved, and the target says why |
| ScsiReplies.TargetIsAttached | crates/se_device/src/scsi.rs:1159-1233 | a target with storage takes a slot if and only if the address is good, the slot free and the storage suits it, and no other slot changes |
| ScsiReplies.StatusBytes | crates/se_device/src/scsi.rs:30-42 | the status bytes of good and check condition |
| ScsiReplies.ReadinessIsTold | crates/se_device/src/scsi_cdrom.rs:392-396 | TEST UNIT READY tells whether the target is ready, and if not, why |
| ScsiReplies.StartsAndStops | crates/se_device/src/scsi_cdrom.rs:149-164 | START and STOP set the readiness of a target with a medium and nothing else |
| ScsiReplies.LockIsSet | crates/se_device/src/scsi_cdrom.rs:213-219 | PREVENT and ALLOW set the lock and nothing else |
| ScsiReplies.ChangesRaiseAttention | crates/se_device/src/scsi_cdrom.rs:314-328 | only a change by the host raises a unit attention, which says that the medium may have changed |
| ScsiReplies.ModeSelectTakesList | crates/se_device/src/scsi_cdrom.rs:121-128 | MODE SELECT takes a list of as many bytes as it says |
| ScsiReplies.CdromIsProtected | crates/se_device/src/scsi_cdrom.rs:376-426 | a CD-ROM is never written |
| ScsiReplies.NoDefectsAreTold | crates/se_device/src/scsi_disk.rs:100-119 | READ DEFECT DATA tells that the list is empty |
| ScsiMessages.MessagesAreUnderstood | crates/se_device/src/scsi.rs:916-954 | messages are understood one by one up to the first unknown one: the last unit named, and asynchronous transfer or a reject in reply |
| ScsiMessages.ConversationReturns | crates/se_device/src/scsi.rs:876-1073 | messages sent byte by byte are answered byte by byte, and then the target is in the phase that attention interrupted, with the unit that was named |
| ScsiMessages.AbortFrees | crates/se_device/src/scsi.rs:916-923 | ABORT by itself frees the bus |
| ScsiMessages.AttentionIsHeard | crates/se_device/src/scsi.rs:1075-1088 | attention brings a target to listen from any phase but a message, to return to that phase |
| ScsiMessages.AttentionInterrupts | crates/se_device/src/scsi.rs:1051-1064 | attention while the target speaks cuts its message short at the next acknowledgement |
| ScsiMessages.UnitIsNamed | crates/se_device/src/scsi.rs:956-960 | without IDENTIFY the six-byte commands name their unit themselves |
| ScsiMessages.MissingUnitAnswers | crates/se_device/src/scsi.rs:976-1011 | for a unit that is not there INQUIRY and REQUEST SENSE get their replies from the target and all else is refused |
| ScsiTargets.DataOutFits | crates/se_device/src/scsi_cdrom.rs:130-147 | MODE SELECT data keeps the drive sound, and a refused list keeps the block size |
| ScsiTargets.NewDisk | crates/se_device/src/scsi_disk.rs:40-58 | a disk is made if and only if the capacity can be reported, and believes in exactly it |
| ScsiTargets.NewCdrom | crates/se_device/src/scsi_cdrom.rs:62-69 | a drive is made if and only if the medium is valid, and believes in exactly it |
| ScsiTargets.AcceptsItself | crates/se_device/src/scsi_cdrom.rs:282-293 | a sound target accepts its own snapshot, in either block size |
| ScsiTransfer.PullsAreOneTransfer | crates/se_device/src/scsi.rs:1688-1800 | any limits and any accept or reject decisions: the accepted chunks, with what is still to come, are the planned bytes, and a transfer that ends leaves the bus and returns the status of one whole chunk |
| ScsiTransfer.PushesAreOneTransfer | crates/se_device/src/scsi.rs:1551-1680 | any limits and rejections: a Data Out that ends leaves the bus and returns the status of one whole chunk of the concatenated payload, storage written or target told once |
| ScsiTransfer.OnePull | crates/se_device/src/scsi.rs:1688-1800 | a chunk is the next bytes; it ends the transfer if and only if it takes the rest |
| ScsiTransfer.PayloadOverwritesItsRange | crates/se_device/src/scsi.rs:1551-1621 | a written payload changes its range of its one medium and no other byte of any medium |
| ScsiTransfer.RejectedChangesNothing | crates/se_device/src/scsi.rs:1492-1549 | a refused or rejected call leaves the bus as it was |
| ScsiSnapshot.SnapshotAccepted | crates/se_device/src/scsi.rs:770-819 | a snapshot of a sound bus is accepted if and only if the other bus has the same targets and every medium needed, and a target-owned command in progress has at most sixteen bytes |
| ScsiSnapshot.SnapshotRoundTrip | crates/se_device/src/scsi.rs:740-819 | what is restored is all protocol state of the bus it was taken of, with media of the same sizes, and snapshots as the same snapshot |
| ScsiSnapshot.RestoreIsSound | crates/se_device/src/scsi.rs:1811-1880 | any snapshot that passes validation, wherever it came from, gives a bus with the invariant |
| ScsiDevice.SharedBus.RestoreSnapshot | crates/se_device/src/scsi.rs:770-819 | in place: a refused snapshot leaves everything as it was, and the late failure after validation is not reached |
| ScsiDevice.SharedBus.CommitSlots | crates/se_device/src/scsi.rs:804-815 | after validation no target refuses its state, so the loop completes |
| ScsiDevice.SharedBus.CaptureSnapshot | crates/se_device/src/scsi.rs:740-755 | the loop over the slots gives the snapshot of the specification |
| ScsiDevice.GatherStates | crates/se_device/src/scsi.rs:771-778 | the states by slot, or a refusal for a bad or repeated address |
| ScsiDevice.SharedBus.InsertMedium | crates/se_device/src/scsi.rs:1243-1276 | in place, storage and target change together, and on each of the errors nothing changes |
| ScsiDevice.SharedBus.EjectMedium | crates/se_device/src/scsi.rs:1289-1322 | in place, storage and target change together, a forced ejection lifts the lock, and on each of the errors nothing changes |
| ScsiDevice.SharedBus.StartCommand | crates/se_device/src/scsi.rs:1330-1458 | in place, execution, plan and transfer of a command |
| ScsiDevice.SharedBus.TransferDataIn | crates/se_device/src/scsi.rs:1492-1515 | in place, one chunk towards the initiator |
| ScsiDevice.SharedBus.TransferDataOut | crates/se_device/src/scsi.rs:1527-1549 | in place, one chunk towards the target |
| ScsiDevice.SharedBus.WriteByte | crates/se_device/src/scsi.rs:876-914 | in place, one message, command or data byte |
| ScsiDevice.SharedBus.ReadByte | crates/se_device/src/scsi.rs:1018-1048 | in place, one data, status or message byte |
| ScsiDevice.SharedBus.FinishMessages | crates/se_device/src/scsi.rs:916-954 | the loop over the message bytes gives unit, identification and reply of the recursive reading |
| ScsiDevice.SharedBus.ExecuteConnectedCommand | crates/se_device/src/scsi.rs:956-974 | in place, the phase that follows a command |
| ScsiDevice.SharedBus.RespondForMissingUnit | crates/se_device/src/scsi.rs:976-1011 | in place, the reply for a unit that is not there |
| ScsiDeviceRun.PerformAll | crates/se_device/src/scsi.rs:740-1808 | any sequence of operations on the bus object, which reaches its drives through their methods, leaves the value of the run of `ScsiRun` with its invariant: every drive and the storage behind it agree, and the transfer in progress lies inside it |
| ScsiDeviceRun.PerformOperation | crates/se_device/src/scsi.rs:740-1808 | one operation on the object is the operation of the run, and no drive comes or goes |
| ScsiDevice.SharedBus.AttachDrive | crates/se_device/src/scsi.rs:1159-1233 | in place, a drive with its storage takes a free slot, cold-attached media are announced without attention, and on each of the errors neither bus nor drive changes |
| ScsiDevice.SharedBus.ExecuteOn | crates/se_device/src/scsi.rs:1340-1360 | a command changes the one drive of its slot and no other slot |
| ScsiDevice.SharedBus.RestoreAt | crates/se_device/src/scsi.rs:804-815 | a slot takes a state if and only if its drive accepts it, and otherwise nothing on the bus changes |
| ScsiDrive.CdromDrive.RestoreState | crates/se_device/src/scsi_cdrom.rs:282-293 | a state is taken if and only if it is acceptable, and otherwise nothing changes |
| ScsiDrive.DiskDrive.ReadDefectData | crates/se_device/src/scsi_disk.rs:100-119 | the loop over the reserved bytes accepts exactly the empty-list request |
| WdWindows.WindowsGiveTheReply | crates/se_device/src/wd33c93b.rs:456-550 | a Select-And-Transfer by programmed transfer whose target replies with data, over any non-empty list of transfer-count windows: the host gets the reply in order, and once the windows cover it, status 0x16, the target's status byte, the exact residue and a free bus |
| WdWindows.WindowsDoNotMatter | crates/se_device/src/wd33c93b.rs:456-550 | two lists of windows that both cover the reply give the same bytes, the same bus and the same status |
| WdOutWindows.WindowsTakeThePayload | crates/se_device/src/wd33c93b.rs:393-402 | a Select-And-Transfer by programmed transfer whose target takes data, over any non-empty list of windows: the target gets the bytes the host writes, in order, as the payload of one write, and once the windows cover it, status 0x16, the target's status byte, the exact residue and a free bus; before that the host keeps the rest |
| WdBlocks.WrittenIsRead | crates/se_device/src/wd33c93b.rs:456-550 | blocks of a ready disk written by one command of the controller are what another command reads, for any windows that cover them on either side |
| WdBlocks.BlocksAreRead | crates/se_device/src/wd33c93b.rs:456-550 | a READ through windows that cover it gives the host exactly the blocks of the medium it names, and the bus as it was |
| WdBlocks.BlocksAreWritten | crates/se_device/src/wd33c93b.rs:456-550 | a WRITE through windows that cover it puts the host's bytes over exactly the blocks it names |
| WdSelection.AbsentTimesOut | crates/se_device/src/wd33c93b.rs:359-454 | selecting an absent target, alone or for a transfer, waits for the least time that counts 80 000 clocks for each unit of the register, for ever if it is zero, and then ends with status 0x42, the interrupt and an unchanged bus |
| WdSelection.PresentIsSelected | crates/se_device/src/wd33c93b.rs:359-380 | selecting a target that is there ends at once, with the target in the phase that attention asks for |
| WdSelection.SelectionShows | crates/se_device/src/wd33c93b.rs:456-474 | after selection the command phase register shows whether IDENTIFY was sent, which drops attention |
| WdSelection.CommandBegins | crates/se_device/src/wd33c93b.rs:768-809 | a command that works on the bus shows the controller busy, takes back the interrupt, and leaves the request and the progress of its kind |
| WdSelection.ResetClears | crates/se_device/src/wd33c93b.rs:822-846 | a software reset clears the registers but the own identification, whose bit 3 shows in the status |
| WdSelection.BusyIsRefused | crates/se_device/src/wd33c93b.rs:368-371 | a selection on a bus that is not free, or a combined command that does not go on with the connected target, is refused with status 0x40 and changes nothing on the bus |
| WdStepwise.InfoIn | crates/se_device/src/wd33c93b.rs:381-391 | a Transfer Info towards the host, in any phase, gives the bytes that flow up to the count or the end of the phase, and tells by its status which it was |
| WdStepwise.InfoOut | crates/se_device/src/wd33c93b.rs:381-402 | a Transfer Info towards the target, in any phase, passes on the host's bytes up to the count or the end of the phase, and tells by its status which it was |
| WdStepwise.PhasesOfAReply | crates/se_device/src/scsi.rs:831-1073 | phase by phase, IDENTIFY and command are taken, the reply, the status and the last message given, and the bus left as a combined command leaves it |
| WdStepwise.AbortStops | crates/se_device/src/wd33c93b.rs:564-568 | an abort stops a transfer where it is, once the staged byte is taken, and names the phase |
| WdStepwise.AcknowledgeEnds | crates/se_device/src/wd33c93b.rs:405-411 | negating ACK accepts the message, and the status names the next phase or that the target has gone |
| WdStepwise.DisconnectFrees | crates/se_device/src/wd33c93b.rs:434-437 | a disconnect clears the progress and frees the bus |
| WdOutWindows.Streamed | crates/se_device/src/wd33c93b.rs:486-550 | one window of writing, from the pump that starts it: a pause with 0x48 and count zero before the payload ends, or completion |
| WdOutWindows.GiveByte | crates/se_device/src/scsi.rs:899-910 | one byte written in Data Out is the next of the payload, and the last one brings the status phase |
| WdWindows.Streamed | crates/se_device/src/wd33c93b.rs:486-550 | one window, from the pump that starts it: a pause with 0x49 and count zero before the data ends, or completion |
| WdWindows.FirstWindow | crates/se_device/src/wd33c93b.rs:456-484 | selection, IDENTIFY if attention is asserted, the command bytes and the first window |
| WdWindows.ResumedWindow | crates/se_device/src/wd33c93b.rs:475-483 | a command reissued in phase 0x46 continues where the last window stopped |
| WdWindows.CommandCollects | crates/se_device/src/scsi.rs:888-898 | command bytes gather until the group's length and then execute once |
| WdWindows.NextByte | crates/se_device/src/scsi.rs:1018-1028 | one byte read in Data In is the next byte to come, and the last one brings the status phase |
| WdWindows.SixteenByteGroupStalls | crates/se_device/src/wd33c93b.rs:891-903 | for an operation code of group 4 the controller sends too few bytes, and the target still waits in the command phase |
| Wd33c93b.LengthsAgree | crates/se_device/src/wd33c93b.rs:891-903 | the two command length tables agree if and only if the operation code is outside group 4 |
| Wd33c93b.StatusRead | crates/se_device/src/scsi.rs:1029-1044 | after the status byte the message read is always Command Complete |
| WdDevice.Controller.Serve | crates/se_device/src/wd33c93b.rs:359-442 | in place, every request leaves controller and bus as ServeRequest, the function the window results are about |
| WdDevice.Controller.PumpOn | crates/se_device/src/wd33c93b.rs:486-541 | in place, one round of the pump, with the second round after a storage failure |
| WdDevice.Controller.ServeCombined | crates/se_device/src/wd33c93b.rs:456-484 | in place, a combined command from a free bus, a paused one, or the wrong state |
| WdDevice.Controller.SendBytes | crates/se_device/src/wd33c93b.rs:472-474 | the loop over the command bytes stops at the first the bus does not take |
| WdDevice.Controller.CollectStatus | crates/se_device/src/wd33c93b.rs:491-500 | in place, status, message and acknowledgement |
| WdDevice.Controller.WriteCommand | crates/se_device/src/wd33c93b.rs:768-820 | in place, the request and the progress each command leaves |
| WdDevice.Controller.Finish | crates/se_device/src/wd33c93b.rs:644-652 | in place, the completion registers |

## Left out

- Memory-mapped decoding, byte lanes and bus errors of every device; registers are fields and methods.
- The application, user interface, configuration, network, session and runtime crates; soft floating point; LG1 graphics; INT2; keyboard, 8020 controller, GIO, RAM, ROM, DSP, parallel port.
- Serialization formats, ownership of boxed targets and storage, and host errors beyond success or failure.
- Targets other than the disk and the CD-ROM drive.
- Dp8573aDevice.Dp8573a.AdvanceOfflineMilliseconds: says nothing beyond safety about a decodable clock whose millisecond is ten or more, which no saved state can hold and no run reaches.
- Dp8573aDevice.Dp8573a.RestoreBatteryState: the phases are in range, as the constructor of saved states checks.
- Saturation and overflow of 128-bit time elsewhere, and of 64-bit storage offsets; times and sizes are natural numbers.
- Other PIC1 registers, DMA error address reporting and memory configuration.
- HPC1 SCSI, parallel and DSP channels, and the diagnostic FIFO contents; flag bits of the byte count and buffer pointer registers that are only read back.
- Guest writes to the Ethernet byte counts, buffer pointers and current-descriptor registers while a frame or packet is in progress; the next-descriptor registers may be written at any time.
- Z85230 port decoding, read registers, external status interrupts and vector bytes; the receive side beyond its FIFO.
- The parity and framing of the mouse line; the keyboard protocol repeats the timing of the serial controller.
- SCSI target reply layouts are modelled but not proved against the SCSI-2 standard.
- Attention raised during Command Complete, which returns to an earlier phase (crates/se_device/src/scsi.rs:1058-1061); the invariant covers it, the window results do not meet it.
- WdWindows.WindowsGiveTheReply: programmed transfer with working storage and a reply that starts Data In; DMA windows and attention during a transfer are modelled in `Wd33c93b` without such a result.
- WdOutWindows.WindowsTakeThePayload: programmed transfer with working storage, and a host that holds exactly the bytes the target wants.
- Wd33c93b.LengthsAgree: is about the two tables only; opcodes of group 4 end in `SixteenByteGroupStalls`.
- Wd33c93b.AdvanceByte: subtraction below zero wraps, as in an optimised build; a build with overflow checks would stop instead.
- WD33C93B registers that only read back (synchronous transfer, source ID), port selection and the hardware reset.
