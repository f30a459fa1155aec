# Verified model of the MDIO probe

The probe listens to the management bus of network chips (MDIO, Clause 22 of
IEEE 802.3), drives it when asked, and powers its level translator from a
software regulator. This project models its cores and proves what they promise.

- **Capture ring** (`clause22`, `capture_ring`, `capture_theorems`). A DMA engine
  writes a circular buffer for ever and the consumer sees only a down-counter. The
  model keeps the whole stream as a ghost and interleaves DMA transfers with every
  read of the consumer. In every reachable state each delivery is genuine, the
  cursor is accounted for, the full scan never locks a wrong offset, at the right offset
  the frames handed up are the frames on the wire, and a complete one is not missed.
- **Regulator** (`regulator`, `regulator_theorems`, `regulator_control`, `vreg`). The
  state machine of the 20 kHz tick and its calls, the invariant of every run, the latch
  and the latching of a persistent short each as an if and only if, how the loop corrects
  an output on either side of its setpoint, what each call sets up; and the driver field
  by field in 32-bit arithmetic, with the wait for the rail. `arithmetic` holds what
  several proofs need about products.
- **Addressing tower** (`switch_hw`, `tower`, `addressing`, `addressing_theorems`,
  `nesting_theorems`). A switch with command windows of arbitrary latency behind a wire
  that may fail, PHYs that layer pages, Clause 45 registers and an address/data pair,
  the software on top, and the addressing modes nested to any depth. When one adapter
  disturbs another, also by an access that goes astray under a page left selected, is
  an if and only if. Contracts speak of the switch once its windows have settled, so
  strapping does not appear in them: multi-chip access is single-chip access.
- **Bit-bang master** (`master`, `master_theorems`, `mdc_clock`, `linger`). What the
  pin writes put on the wire, what the capture path makes of it, the clock trim, and
  how long the buffer stays on the bus. The line has two levels a clock, at the rising
  edge for the capture path and at the end of the high half for the master.
- **Session** (`bus_detector`, `capture_session`, `session`). The detector, the capture
  session on top of the ring, and the interlocks over any sequence of the calls of
  `Session.Probe`, with failing sub-steps. They run the supply, the pins, the clock and
  the buffer of the other modules.
- **Data** (`autocal`, `autocal_theorems`, `chip_table`, `summary`,
  `summary_theorems`). The passive frequency measurement, the fixed-width chip table and
  the capture summary.

Code that changes state step by step is a class or a method with loops; pure code is
functions. Ghost state is the world outside the code: the byte stream, the history of
polls, the frames a tally was given.

What the model takes from outside: the ADC sample and watchdog flag of a tick, the
two levels on the line at each clock, the time the bit loop takes (any function with a
floor and a resolution), which wire accesses fail and how long a switch stays busy,
which sub-steps of a mode switch fail, and when the volume is full.

Places where the code and its comments differ; the model follows the code:

- `src/mdioprobe_vreg.c:143-147` says excursions are tracked only while ON; lines
  225-231 track them in PASSTHRU too (`RegulatorTheorems.ExcursionsTracked`).
- `src/mdioprobe_vreg.h:72` speaks of a 10 kHz tick; the timer is set to 20 kHz.
- `src/mdioprobe_api.c:366-396` and the comment above it allow a timeout; with 100
  ticks in 5 ms it cannot happen.
- `src/mdioprobe_bus.c:219-251`: a withdrawn forced level stays the known rail of a
  present target until the next poll (`BusDetector.Detector.RailKnown`).
- `src/mdioprobe_api.c:115` drops the result of the pin parking (`Session.Probe.Boot`).
- `src/mdioprobe_mdio_master.c:359-366` says the clock is measured only with the
  buffer off; nothing checks that (lines 210-221 and 522-532). `Session.Probe.SetClock`
  and `Session.Probe.MeasureClock` say exactly when the promise is kept, and
  `Session.Probe.SetClockAfterTransaction` has the calls that break it: a transaction,
  and the clock set within 20 ms.
- `src/mdioprobe_serial.h:12-21` says only one personality is live at a time on PB8; the
  timing of the bit loop puts that pin in analog mode whatever the mode is
  (`src/mdioprobe_mdio_master.c:375-380`). `Session.Probe.SetClock` says exactly when a
  live driver keeps it, `Session.Probe.ConnectorSetMode` what a failed switch leaves.
- `src/python/cli/access.py:8-12` says neither class of a nest knows about the other;
  it matters all the same which page one leaves selected
  (`AddressingTheorems.UndisturbedExactly`, `NestingTheorems.MmdAround`).

## Model

| member | source | states |
|---|---|---|
| `Clause22.PlausibleOnWord` | src/mdioprobe_mdio_api.c:167-185 | the window test on bytes is the source's test on the 32-bit word: start 01, and either a read, or a write whose turnaround is 10 |
| `Clause22.DecodeFrameWord` | src/mdioprobe_mdio_api.c:131-142 | decoding inverts the field layout of section 22.2.4.5 of IEEE 802.3 with no error mark, and of such words the window test accepts exactly reads and the writes with turnaround 10 |
| `Clause22.PlausibleDecodesClean` | src/mdioprobe_mdio_api.c:131-185 | whatever the window test accepts decodes as a read or a write with err 0 |
| `Clause22.ShiftInIsBigEndian` | src/mdioprobe_mdio_api.c:131-135 | bits shifted in a byte at a time and read as a big-endian word are the number those bits spell |
| `CaptureRing.RingRead` | src/mdioprobe_mdio_api.c:95-106 | a masked read k bytes past a slot finds the stream byte k past its position, wherever the ring wraps, while the DMA is at most 256 ahead of it |
| `CaptureRing.Distance` | src/mdioprobe_mdio_api.c:481-485 | the masked difference of head and slot is the true distance modulo 256 |
| `CaptureRing.RestartFollows` | src/mdioprobe_mdio_api.c:373-379 | a restart lands on the slot being written, never behind the cursor |
| `CaptureRing.ResyncFollows` | src/mdioprobe_mdio_api.c:487-511 | from more than 248 unread bytes a resync lands on a slot boundary within 3 bytes of the head, at least 62 slots further on |
| `CaptureRing.Dma.Transfer` | src/mdioprobe_mdio_api.c:108-128 | one DMA transfer appends one byte to the stream and keeps the ring equal to its last 256 bytes, with the counter seen at 0 or already reloaded |
| `CaptureRing.Dma.HeadBytes` | src/mdioprobe_mdio_api.c:123-128 | the head is the number of bytes ever written, modulo 256, also when the counter is caught at 0 |
| `CaptureRing.Dma.ReadFrameBytes` | src/mdioprobe_mdio_api.c:100-106 | the four bytes copied are the four consecutive stream bytes asked for although the DMA runs between any two of the reads |
| `CaptureRing.Dma.WindowIsC22` | src/mdioprobe_mdio_api.c:167-185 | the same for the window test |
| `CaptureRing.Dma.DetectOffset` | src/mdioprobe_mdio_api.c:193-209 | the scan returns an offset if and only if exactly one of the four candidates passes, and reports ambiguity if and only if two pass |
| `CaptureRing.Dma.DumpRaw` | src/mdioprobe_mdio_api.c:421-447 | in wire order the bytes that were newest when the head was read, zeros where nothing was written yet, at most 256, for every position the running DMA has not come round to |
| `CaptureRing.Capture.Unread` | src/mdioprobe_mdio_api.c:482-511 | the backlog the code computes is the true one modulo the ring; whole laps are absorbed without being seen |
| `CaptureRing.Capture.SkipToLatest` | src/mdioprobe_mdio_api.c:373-379 | the cursor moves to at most 3 bytes behind the head and nothing else changes |
| `CaptureRing.Capture.SetByteOffset` | src/mdioprobe_mdio_api.c:411-419 | forces the offset modulo 4, or re-arms the detection |
| `CaptureRing.Capture.SkipSlot` | src/mdioprobe_mdio_api.c:536-540 | a slot the scan cannot resolve is dropped: the cursor moves one slot |
| `CaptureRing.Capture.Resync` | src/mdioprobe_mdio_api.c:507-511 | an overrun is counted and the cursor moves strictly forward, at least 62 slots, to within 3 bytes of the head |
| `CaptureRing.Capture.ScanAndLock` | src/mdioprobe_mdio_api.c:517-535 | the full scan locks an offset exactly when it is the only one that passes at the cursor |
| `CaptureRing.Capture.TryOffsetZero` | src/mdioprobe_mdio_api.c:545-557 | the fast path locks 0 exactly when the slot's own four bytes pass |
| `CaptureRing.Capture.Take` | src/mdioprobe_mdio_api.c:565-581 | the bytes handed up are the stream bytes at cursor plus offset, logged with the offset and the evidence it was locked on, and the cursor advances by one slot |
| `CaptureRing.Capture.Look` | src/mdioprobe_mdio_api.c:481-563 | one turn of the loop decides as the specification of the stream and the backlog says: ready, resynchronised, skipped or nothing; nothing means too few bytes for the offset in use; a complete window is found at its offset; what is handed up unsettled had no way on; when ready, 8 more transfers do not reach the window |
| `CaptureRing.Capture.Await` | src/mdioprobe_mdio_api.c:475-563 | terminates for every DMA schedule of at most 247 transfers between a resync and the check after it and any number elsewhere: the time left, the skips left or what a resync leaves between cursor and head falls on every path; it gives up only after sleeping the whole timeout, at a look that found too few bytes, and does not miss a complete window |
| `CaptureRing.Capture.SniffOneTo` | src/mdioprobe_mdio_api.c:449-582 | a timeout means the whole timeout slept and, at the last look, fewer bytes between cursor and head than the offset in use needs, or with none yet fewer than 4, or 4 to 6 that are no frame; a complete window the writer stays clear of is delivered, at its offset; one more delivery is logged and decoded on success and none on a timeout; a slot is handed up unsettled only with no candidate of its own and nothing left to skip to |
| `CaptureTheorems.DeliveriesAreGenuine` | src/mdioprobe_mdio_api.c:475-582 | in every reachable state each delivery ever made is four consecutive stream bytes, and between deliveries the cursor moved only by skips, laps, overruns and restarts |
| `CaptureTheorems.SlotsAccountedFor` | src/mdioprobe_mdio_api.c:475-582 | between two deliveries every slot is delivered, skipped, part of an undetected lap or inside a counted overrun; with neither overrun nor restart the count is exact |
| `CaptureTheorems.FullScanNeverMislocks` | src/mdioprobe_mdio_api.c:187-209 | on a stream of valid frames at residue o, the only offset the scan can lock is o, and it locks it if and only if the slot is not ambiguous |
| `CaptureTheorems.DroppedWasAmbiguous` | src/mdioprobe_mdio_api.c:517-540 | in every reachable state each slot ever skipped was ambiguous, if the stream is one of frames: a slot with one candidate is never lost |
| `CaptureTheorems.DeliveryIsTheFrame` | src/mdioprobe_mdio_api.c:565-582 | a delivery at the right offset, however that was settled, decodes to the very frame its slot carries |
| `CaptureTheorems.OffsetIsRight` | src/mdioprobe_mdio_api.c:471-563 | a detected offset is right if and only if a full scan settled it or the stream is aligned at 0, where the fast path looks |
| `CaptureTheorems.LosslessCapture` | src/mdioprobe_mdio_api.c:449-582 | with no skip, lap, overrun or restart in between, and at the right offset however it was settled, deliveries i and j are frames on the wire exactly j - i apart |
| `CaptureTheorems.FastPathExact` | src/mdioprobe_mdio_api.c:545-557 | from four to six bytes the detector always settles when the frames are at 0; when they are not, it settles wrongly if and only if the straddling window passes the test |
| `CaptureTheorems.FastPathMislocksExactly` | src/mdioprobe_mdio_api.c:545-557 | between two frames off residue 0 the fast path locks wrongly if and only if named bits of the frame before, and for a write two address bits of the one that has begun, spell a frame across the boundary |
| `CaptureTheorems.FastPathCanMislock` | src/mdioprobe_mdio_api.c:545-557 | a concrete stream on which the fast path hands up a read nobody sent |
| `CaptureTheorems.SlotLifetime` | src/mdioprobe_mdio_api.c:487-511 | a byte stays readable until the DMA is 256 past it and from the next transfer on reads as another: the 8-byte margin is exact |
| `CaptureTheorems.SlackIsExact` | src/mdioprobe_mdio_api.c:507-511 | the bound of the wait loop is exact: a schedule of at most that many transfers after each resync keeps it resynchronising for ever if and only if the bound is 248 or more |
| `Regulator.RunKeepsInv` | src/mdioprobe_vreg.c:194-500 | over every interleaving of ticks and calls: integrator and gate in range, DAC register equal to the tracked code, setpoint at most its target, OFF and FAULT at code 4095, PASSTHRU at 0, trip level in step with target and margin |
| `Regulator.TickKeepsInv` | src/mdioprobe_vreg.c:219-308 | the same for one tick from any such state and any sample |
| `Regulator.SetTargetKeepsInv` | src/mdioprobe_vreg.c:429-483 | the same for a re-targeting, also right after the margin changed |
| `Regulator.GainToQ16` | src/mdioprobe_vreg.c:495-500 | a gain is between 0 and 65536 for every numerator and non-zero denominator |
| `RegulatorTheorems.CounterStep` | src/mdioprobe_vreg.c:225-246 | how one event moves the streak counter of a regulator armed after it |
| `RegulatorTheorems.StreakIsCounted` | src/mdioprobe_vreg.c:225-246 | while armed, the counter is at least k if and only if the last k ticks were all hot |
| `RegulatorTheorems.FaultExactly` | src/mdioprobe_vreg.c:225-275 | an event enters FAULT if and only if it and the 99 ticks before it were armed, flagged and at gate code 32 or less, with nothing between them that re-arms |
| `RegulatorTheorems.LatchHolds` | src/mdioprobe_vreg.c:248-252 | no number of ticks leaves OFF or FAULT or moves the gate |
| `RegulatorTheorems.ShortedTick` | src/mdioprobe_vreg.c:287-305 | one tick of a short drains the integrator by a fixed least amount or to the rail, and moves the counter only by the saturation of the gate |
| `RegulatorTheorems.SaturatedShortLatches` | src/mdioprobe_vreg.c:225-305 | from the rail the gate cannot unsaturate while the short lasts, so the remaining count closes the latch |
| `RegulatorTheorems.PersistentShortLatches` | src/mdioprobe_vreg.c:219-308 | for any gains and margin under which a shorted tick moves the integrator: rail within n ticks, latch within 100 more |
| `RegulatorTheorems.DefaultShortLatches` | src/mdioprobe_vreg.c:219-308 | with default integral gain and margin, from any reachable ON state a short of 183 ticks (83 and 100) always latches |
| `RegulatorTheorems.HeldTick` | src/mdioprobe_vreg.c:225-305 | a short that does not move the integrator: how far the proportional term alone opens or holds the gate, and when the tick latches |
| `RegulatorTheorems.HeldShortLatches` | src/mdioprobe_vreg.c:225-305 | held saturated by the proportional term, a short latches in what is left of the count |
| `RegulatorTheorems.MildShortStays` | src/mdioprobe_vreg.c:225-305 | where none of the conditions holds the mildest short, each sample one code below the trip level, never latches however long |
| `RegulatorTheorems.ShortLatchesExactly` | src/mdioprobe_vreg.c:219-308 | for an ON regulator in any reachable state and any gains: a long enough short always latches if and only if it drains the integrator, or the proportional term holds the gate saturated, or the streak lacks one tick, or the trip level is 0 |
| `RegulatorTheorems.PassthruShortLatches` | src/mdioprobe_vreg.c:225-246 | in PASSTHRU 100 flagged ticks in a row latch |
| `RegulatorTheorems.SoftStartEnds` | src/mdioprobe_vreg.c:254-275 | a ramp ends at exactly the tick its distance says, at most 512, in ON or PASSTHRU as requested, at its target, with the streak at zero, whatever the samples |
| `RegulatorTheorems.RampIsOver` | src/mdioprobe_vreg.c:254-275 | any number of ticks later the supply still ramps only if fewer ran than the ramp had left, and is otherwise armed or faulted, its target unchanged |
| `RegulatorTheorems.RetargetIsBumpless` | src/mdioprobe_vreg.c:463-480 | re-targeting while ON or ramping leaves gate and integrator where they are; from OFF, FAULT or PASSTHRU it starts from off |
| `RegulatorTheorems.MarginRearms` | src/mdioprobe_vreg.c:542-549 | changing the margin restarts a supply that was shut down or had latched a fault, if it ever had a target |
| `RegulatorTheorems.GainExact` | src/mdioprobe_vreg.c:495-500 | the gain is the clamped quotient if and only if the numerator is below 65536 or its low half alone reaches the clamp |
| `RegulatorTheorems.CodeRoundTrip` | src/mdioprobe_vreg.c:155-165 | millivolts to code and back lose at most one millivolt |
| `RegulatorTheorems.ExcursionsTracked` | src/mdioprobe_vreg.c:225-231 | the excursion window takes in the sample of every armed tick, in PASSTHRU as in ON, and of no other |
| `ControlTheorems.IntegratorMove` | src/mdioprobe_vreg.c:287-297 | a tick under control moves the integrator by the excess over the setpoint times the integral gain, to within one count and its rails |
| `ControlTheorems.GateFollows` | src/mdioprobe_vreg.c:295-305 | and the gate is that integrator and the excess times the proportional gain, to within one code and its rails, and is what the DAC gets |
| `ControlTheorems.SetpointInForce` | src/mdioprobe_vreg.c:254-275 | the setpoint of the tick is the target, or on the ramp 8 codes on |
| `ControlTheorems.TickIsMonotone` | src/mdioprobe_vreg.c:277-305 | a higher output never opens the pass element further |
| `ControlTheorems.CorrectsBothWays` | src/mdioprobe_vreg.c:287-297 | at the setpoint the integrator stands still, above it it always rises or is at its rail, below it it falls exactly when the product makes a count |
| `ControlTheorems.StuckHighShuts` | src/mdioprobe_vreg.c:277-305 | an output stuck above its setpoint shuts the pass element and keeps it shut, at any integral gain and from any ON state |
| `ControlTheorems.FlagIsSpent` | src/mdioprobe_vreg.c:225-275 | the watchdog flag counts for one tick: an armed regulator has none left after it, nor has one that just ended its ramp |
| `ControlTheorems.NoFlagNoCount` | src/mdioprobe_vreg.c:225-246 | so a further tick counts towards the latch exactly if its own flag came up with the gate saturated, and otherwise the streak is over |
| `ControlTheorems.RequestSetsUp` | src/mdioprobe_vreg.c:429-483 | what a request sets up: the target held to its range, its code, the trip level the margin below, each to within a code, the ramp from the present output, no old flag |
| `ControlTheorems.MarginSetsUp` | src/mdioprobe_vreg.c:542-549 | a new margin takes effect at once on a supply that has a target |
| `ControlTheorems.GainCalls` | src/mdioprobe_vreg.c:495-526 | each gain call moves its own gain only, none with a denominator of zero, to the clamped quotient |
| `ControlTheorems.OtherCalls` | src/mdioprobe_vreg.c:485-540 | shutdown shuts the pass element and keeps the rest; a tracker reset sets the window to the present output |
| `VregDriver.ProductFits` | src/mdioprobe_vreg.c:277-297 | the products of the control law stay inside int32 |
| `VregDriver.Vreg.GatePark` | src/mdioprobe_vreg.c:194-199 | parking keeps code, integrator and DAC register in step |
| `VregDriver.Vreg.EnterFault` | src/mdioprobe_vreg.c:202-206 | the latch parks the gate off |
| `VregDriver.Vreg.GuardShort` | src/mdioprobe_vreg.c:225-246 | the armed half of the tick as the state machine has it |
| `VregDriver.Vreg.Pi` | src/mdioprobe_vreg.c:277-305 | the control law as the state machine has it, with no int32 overflow; what it does to integrator and gate is `ControlTheorems.IntegratorMove` and `ControlTheorems.GateFollows` |
| `VregDriver.Vreg.Ramp` | src/mdioprobe_vreg.c:254-275 | the ramp as the state machine has it |
| `VregDriver.Vreg.Control` | src/mdioprobe_vreg.c:248-308 | the tick past the short-circuit check as the state machine has it |
| `VregDriver.Vreg.TickIsr` | src/mdioprobe_vreg.c:219-308 | the whole interrupt in 32-bit arithmetic is the tick of the state machine and keeps its invariant |
| `VregDriver.Vreg.SetTargetMv` | src/mdioprobe_vreg.c:429-483 | the call is the state machine's step for every request |
| `VregDriver.Vreg.Shutdown` | src/mdioprobe_vreg.c:485-493 | likewise for shutdown |
| `VregDriver.Vreg.SetKi` | src/mdioprobe_vreg.c:502-513 | likewise for the integral gain; a zero denominator changes nothing |
| `VregDriver.Vreg.SetKp` | src/mdioprobe_vreg.c:515-526 | likewise for the proportional gain |
| `VregDriver.Vreg.SetScMargin` | src/mdioprobe_vreg.c:542-549 | likewise for the margin, which re-applies the last target |
| `VregDriver.Vreg.TrackReset` | src/mdioprobe_vreg.c:528-540 | likewise for the excursion tracker |
| `VregDriver.AwaitRail` | src/mdioprobe_api.c:383-395 | the 40 polls end ready or faulted, never by running out |
| `VregDriver.SupplyAtRail` | src/mdioprobe_api.c:366-396 | never times out: ready, faulted or no rail; ready means armed and, for a standard rail, at that target; a second call with the same rail changes nothing |
| `Tower.SmiWordFields` | src/python/cli/marvell.py:36-45 | the command words of the multi-chip pair carry mode, operation, device and register in the documented bits |
| `Tower.WinWordFields` | scripts/lib/mv6390.py:269-334 | the command words of the Global2 window carry function, mode, operation, address and register |
| `Tower.PollPair` | src/python/cli/marvell.py:72-77 | polling the pair changes nothing a layer above can see, and sees busy exactly as long as the command runs |
| `Tower.CommandPair` | src/python/cli/marvell.py:109-112 | a command to an idle pair has the effect of the direct access to the core, whatever its latency |
| `Tower.StrobeWindow` | src/python/cli/marvell.py:129-144 | a window command comes to the same whatever its latency |
| `Tower.StrobedEffect` | scripts/lib/mv6390.py:269-334 | each of the five window commands does to the addressed PHY and the data register what it stands for and nothing to any other PHY, register or scratch byte |
| `Tower.Switch.WaitPair` | src/python/cli/marvell.py:72-77 | waiting leaves the switch as it was; it succeeds only within 15 busy answers and raises a CommandError only after 16; an OSError means the last access on the wire failed |
| `Tower.Switch.Read` | src/python/cli/marvell.py:102-112 | in both strappings: on success the value and the switch state of one direct core read; on failure that read happened or did not; never fails on a calm wire |
| `Tower.Switch.Write` | src/python/cli/marvell.py:114-125 | the same for a write, device and register masked to 5 bits and value to 16 |
| `Tower.Switch.PhyWait` | src/python/cli/marvell.py:129-130 | waiting for the window changes only the completion of the command in flight; it succeeds only within 15 busy answers; an OSError means an access on the wire failed, and a prompt switch never lets a CommandError happen |
| `Tower.Switch.FuncRead` | scripts/lib/mv6390.py:277-283 | through the window, on either bus of the function field: the value of exactly that PHY register, and nothing else moved; no PHY moves when it fails |
| `Tower.Switch.FuncWrite` | scripts/lib/mv6390.py:328-334 | exactly that PHY register written, all other PHYs and the switch's own registers unchanged but the window's; on failure that write happened or nothing did to any PHY |
| `Tower.Switch.PhyRead` | src/python/cli/marvell.py:132-137 | the same with function 0, whichever strapping is underneath |
| `Tower.Switch.PhyWrite` | src/python/cli/marvell.py:139-144 | the same for the write, failures included |
| `Tower.Switch.C45Read` | scripts/lib/mv6390.py:286-304 | the Clause 45 register named by device class and number, with only the PHY's address latch changed |
| `Tower.Switch.C45Write` | scripts/lib/mv6390.py:307-325 | that Clause 45 register written |
| `Tower.Switch.ScratchRead` | src/python/cli/marvell.py:152-154 | the byte at index modulo 128; an index of 0x80 or more clears it on the way, because bit 15 is the update bit; nothing else in the core moves but the pointer, and on a calm wire it succeeds |
| `Tower.Switch.ScratchWrite` | src/python/cli/marvell.py:156-158 | the byte at index modulo 128 is written and no other, nothing else in the core moves but the pointer, and on a calm wire it succeeds |
| `Addressing.Write` | src/python/cli/access.py:15-145 | for every nest of adapters over PHY n on the wire, internal PHY n behind the switch or PHY n of a window's bus: a write that succeeded, with every extension page released, left that PHY as the nest's accesses do and no other PHY moved |
| `Addressing.Read` | src/python/cli/access.py:15-145 | the same for a read, and its value |
| `Addressing.MmdArm` | src/python/cli/access.py:113-116 | the three arming writes of Mmd |
| `Addressing.MmdRead` | src/python/cli/access.py:118-120 | Mmd.read over any bus |
| `Addressing.MmdWrite` | src/python/cli/access.py:122-124 | Mmd.write over any bus |
| `Addressing.ExtRead` | src/python/cli/access.py:82-87 | ExtPage.read over any bus, with its finally; over a bottom bus its result and the PHY as a function of what became of its four accesses |
| `Addressing.ExtWrite` | src/python/cli/access.py:89-94 | ExtPage.write over any bus, with its finally; over a bottom bus, on the wire or behind a switch, its result and the PHY as a function of what became of its four writes, and on the wire of which accesses fail |
| `Addressing.Release` | src/python/cli/access.py:76-80 | an OSError of the closing write is swallowed, any other error is raised |
| `Addressing.SerdesRead` | scripts/lib/mv6390.py:765-781 | register r of the image is Clause 45 register 0x2000 + r modulo 32 of device class 4, only the latch changed |
| `AddressingTheorems.BaseIsTransparent` | src/python/cli/access.py:1-12 | the same nest over any two bottoms, on hardware strapped either way, returns the same value and leaves the two PHYs in the same state |
| `AddressingTheorems.Armed` | src/python/cli/access.py:113-116 | after the three writes, with page 0 showing, register 14 is a data port on the named register (sections 22.2.4.3.11 and 22.2.4.3.12 of IEEE 802.3), and only register 13 and the pointer moved |
| `AddressingTheorems.WriteLands` | src/python/cli/access.py:31-145 | on a PHY with pages, Clause 45 registers and an address/data pair layered at once, a write through an adapter that selects its own page, or any while page 0 shows, lands in the register it names and moves no other content of any layer |
| `AddressingTheorems.ReadLands` | src/python/cli/access.py:31-145 | such a read returns the register it names and moves no content at all |
| `AddressingTheorems.ReadsAstray` | src/python/cli/access.py:31-145 | what a bus that selects no page reads while another page shows: Mmd the register number it was asked for, the others what that page holds |
| `AddressingTheorems.StrayForm` | src/python/cli/access.py:31-145 | the whole effect of an access while another page shows: which registers of that page it overwrites, and with what; a read through Mmd or a pair overwrites too |
| `AddressingTheorems.ReadsRightExactly` | src/python/cli/access.py:31-145 | a bus reads what it names, whatever that holds, if and only if it selects its own page or page 0 shows |
| `AddressingTheorems.WritesRightExactly` | src/python/cli/access.py:31-145 | a write lands in the register named, for every value, if and only if the bus selects its own page or page 0 shows |
| `AddressingTheorems.UndisturbedExactly` | src/python/cli/access.py:31-145 | any two buses, of the same kind or not, on one layered PHY, whatever page shows: a write through the first leaves the second reading the register it names, for all contents and values, if and only if the second selects its own page or the first leaves page 0 showing, and the first did not go astray into that register |
| `AddressingTheorems.UndisturbedByReadExactly` | src/python/cli/access.py:31-145 | the same after a read through the first, which writes selectors and goes astray as a write does |
| `AddressingTheorems.AfterWrite` | src/python/cli/access.py:31-145 | what the second bus then reads in every case: the value written, what was there before, what strayed into it, or what the page showing holds |
| `AddressingTheorems.PagedBlindsMmd` | src/python/cli/access.py:31-55 | the failing family: a page Paged left selected, and Mmd on the same PHY returns the register number for the register |
| `AddressingTheorems.MmdSpoilsPage` | src/python/cli/access.py:31-124 | and a write through that Mmd destroys registers 13 and 14 of the page while the register it names keeps its value |
| `AddressingTheorems.PagedReadBack` | src/python/cli/access.py:46-55 | on any PHY with pages, whatever else it layers: at its own selector Paged reads the page back, so read after write holds if and only if the register is another or the value is the page |
| `AddressingTheorems.ExtPageReadBack` | src/python/cli/access.py:72-94 | for ExtPage if and only if the register is below 0x1E, or is 0x1E with the page, or 0x1F with 7 |
| `AddressingTheorems.Clause45BothWays` | scripts/lib/mv6390.py:286-325 | what the window's Clause 45 cycle writes Mmd reads while page 0 shows, and the other way round, and neither touches another register |
| `AddressingTheorems.WriteThenReadClause45` | scripts/lib/mv6390.py:286-325 | a Clause 45 write through the window, then a read of the same or any other register of any PHY behind the switch: the value written, or what was there before; on a calm wire both succeed in either strapping |
| `AddressingTheorems.ExtPageFailure` | src/python/cli/access.py:72-94 | on the wire: exactly when a write through ExtPage reports success, and exactly when it leaves the extension space selected, given which accesses fail |
| `AddressingTheorems.ExtPageOutcome` | src/python/cli/access.py:72-94 | over any bottom bus, given what becomes of the four writes: exactly when ExtPage.write reports success, when it raises a CommandError, what the selector holds in the end, and when a success leaves the extension space selected |
| `AddressingTheorems.ExtPageReadOutcome` | src/python/cli/access.py:72-87 | the same for ExtPage.read, of any register |
| `NestingTheorems.InnerWrite` | src/python/cli/access.py:31-145 | a write through an adapter to a number it names, or to a selector of its own, moves that register or no content |
| `NestingTheorems.WindowAround` | src/python/cli/access.py:127-145 | an address/data pair around an adapter reads and writes the inner adapter's data register, whatever number is asked for |
| `NestingTheorems.PagedAround` | src/python/cli/access.py:31-55 | a page around an adapter reads and writes the inner adapter's register, whatever page is asked for |
| `NestingTheorems.ExtPageAround` | src/python/cli/access.py:58-94 | an extension page around an adapter likewise |
| `NestingTheorems.MmdAround` | src/python/cli/access.py:97-124 | Mmd around an adapter that does not show page 0 reads back the register number it was asked for |
| `NestingTheorems.AroundPageZero` | src/python/cli/access.py:31-145 | Mmd, or an address/data pair, around page 0 is the same adapter on the PHY with page 0 showing, whatever page showed before |
| `NestingTheorems.MmdAroundPageZeroReadBack` | src/python/cli/access.py:31-124 | so Mmd around page 0 reads back what it wrote and disturbs no other register, on a PHY left on any page |
| `Master.Pins.WriteBit` | src/mdioprobe_mdio_master.c:310-317 | one clock, MDIO moved only with MDC low; it reaches the connector exactly if the buffer is on |
| `Master.Pins.ReadBit` | src/mdioprobe_mdio_master.c:321-330 | one clock with MDIO let go, and the level at the end of its high half, not at its rising edge |
| `Master.Pins.WriteBits` | src/mdioprobe_mdio_master.c:332-337 | exactly the low bits of the value, most significant first, one clock each |
| `Master.Pins.SendPreamble` | src/mdioprobe_mdio_master.c:542-548 | 32 clocks with MDIO let go |
| `Master.Pins.WriteFrame` | src/mdioprobe_mdio_master.c:561-682 | exactly 64 clocks: preamble, 01, 01, address, register, 10, data; MDIO moved only with MDC low; MDC low and MDIO released at the end; all of it on the wire exactly if the buffer is on |
| `Master.Pins.ReadWord` | src/mdioprobe_mdio_master.c:651-657 | sixteen clocks, their levels packed most significant first |
| `Master.Pins.ReadFrame` | src/mdioprobe_mdio_master.c:561-682 | exactly 64 clocks, the last 18 released; the value of clocks 48 to 63; an error if and only if clock 47 was high and the mode is strict or the value all ones |
| `MasterTheorems.WriteRoundTrip` | src/mdioprobe_mdio_master.c:573-576 | for every phy, register and value the 32 bits after the preamble pass the capture path's window test and decode to the same write with no error |
| `MasterTheorems.ReadSeenByCapture` | src/mdioprobe_mdio_master.c:642-667 | the capture path samples at rising edges, the master at the end of the high half: the probe's own capture of a read is a read of the same register carrying the levels at the rising edges of clocks 49 to 64, and that is the value the master returns if and only if the target holds every bit over to the next rising edge |
| `MasterTheorems.EarlyPart` | src/mdioprobe_mdio_master.c:577-674 | a part with data from clock 48 is read right in either mode when it acknowledges, refused in strict mode when it does not, and in relaxed mode only for all ones |
| `MasterTheorems.SilentBus` | src/mdioprobe_mdio_master.c:669-673 | a bus with nobody on it is an error in either mode |
| `MasterTheorems.DatasheetPart` | src/mdioprobe_mdio_master.c:642-645 | a part that follows the drawing is refused in strict mode and reads halved in relaxed mode |
| `MdcClock.Want` | src/mdioprobe_mdio_master.c:194 | the wanted half-period is between 34 and 8500 cycles for 10 to 2500 kHz |
| `MdcClock.MostThatFit` | src/mdioprobe_mdio_master.c:409-421 | as many bits are timed as fit the window, one at least and 32 at most |
| `MdcClock.Clock.TimeBitLoop` | src/mdioprobe_mdio_master.c:375-393 | timing clocks its bits with MDIO let go, taking the pad from a serial driver that has it, and they go out on the wire exactly if the buffer is on |
| `MdcClock.Clock.Calibrate` | src/mdioprobe_mdio_master.c:435-461 | the fitted line passes within one cycle of both measured points, and is left unset exactly when they make no sense; it clocks 64 bits, which get out only with the buffer on |
| `MdcClock.Clock.Apply` | src/mdioprobe_mdio_master.c:192-205 | the longest spin the fitted line puts at or below the wanted half-period |
| `MdcClock.Clock.Trim` | src/mdioprobe_mdio_master.c:487-507 | with a resolution of at most 12 cycles the 12 rounds end at or above the wanted half-period, less than the resolution above it if they added anything, and never shorten it |
| `MdcClock.Clock.SetClock` | src/mdioprobe_mdio_master.c:210-221 | refused exactly outside 10 to 2500 kHz, changing nothing; otherwise a set-up clock ends at or above the wanted half-period, within the specification, and not far above it: by less than the resolution if the trim added anything, else by what the fitted line, its slope and the floor allow; its timing puts nothing on the wire if and only if the call is refused, the master is not set up, the calibration made no sense or the buffer is off |
| `MdcClock.Clock.MeasureClock` | src/mdioprobe_mdio_master.c:522-540 | the rounded rate, 0 before set-up; nothing reaches the wire if and only if the master is not set up or the buffer is off |
| `MdcClock.Clock.Init` | src/mdioprobe_mdio_master.c:794-842 | the same two bounds after initialisation, whose own timing never reaches the wire, as it switches the buffer off first |
| `MdcClock.Clock.CloseInFigures` | src/mdioprobe_mdio_master.c:435-507 | in figures: less than a ninth and 13 cycles over the wanted half-period, or what the loop makes at a spin of 8 |
| `MdcClock.WithinSpecIsEnough` | src/mdioprobe_mdio_master.c:107-108 | a half-period of 34 cycles or more is 2500 kHz or less, the limit of section 22.2.2.11 of IEEE 802.3, and the other way round |
| `MdcClock.FlooredWant` | src/mdioprobe_mdio_master.c:194 | the trimmed clock is guaranteed not to exceed the rate asked for if and only if that rate divides 85000 kHz |
| `Linger.Buffer.Begin` | src/mdioprobe_mdio_master.c:711-733 | the buffer's pin comes on with a release pending 20 ms ahead; already on, nothing is rescheduled |
| `Linger.Buffer.End` | src/mdioprobe_mdio_master.c:786-790 | the end of a transaction stamps the time, and the pending release is at most 20 ms after it |
| `Linger.Buffer.Release` | src/mdioprobe_mdio_master.c:754-772 | the work lets the buffer go exactly when 20 ms have passed since the last frame, else it reschedules for that moment |
| `Linger.Buffer.HandBack` | src/mdioprobe_mdio_master.c:932-942 | the explicit release: off at once, nothing pending |
| `Linger.Buffer.Rest` | src/mdioprobe_mdio_master.c:735-772 | after any quiet time the buffer is on if and only if it was and less than 20 ms have passed since the last frame, and it went off exactly 20 ms after it |
| `BusDetector.WidestTolerance` | src/mdioprobe_bus.c:31-37 | 13.7 % is the widest tolerance, in thousandths, that keeps the three windows apart |
| `BusDetector.ClassifyIsTheMatch` | src/mdioprobe_bus.c:56-73 | a reading is classified as a rail exactly when it is inside that rail's window, whatever the order of the table |
| `BusDetector.ReadingsCount` | src/mdioprobe_bus.c:31-103 | the windows in millivolts, and how many samples must cluster |
| `BusDetector.AbsentAtFirst` | src/mdioprobe_bus.c:105-125 | nobody is present before two polls |
| `BusDetector.PresenceFlips` | src/mdioprobe_bus.c:105-125 | presence changes at a poll if and only if that poll and the one before it both say the opposite |
| `BusDetector.NoFlapping` | src/mdioprobe_bus.c:39-41 | alternating polls, however many, never change presence |
| `BusDetector.Detector.Debounce` | src/mdioprobe_bus.c:105-125 | the two saturating streaks compute that presence |
| `BusDetector.Detector.Poll` | src/mdioprobe_bus.c:75-150 | a poll is ignored while inhibited; else its verdict is appended to the history all the state is a function of: the rail whose window in millivolts the level is in, if two and a quarter of the samples clustered there, and none otherwise |
| `BusDetector.Detector.ForceLevel` | src/mdioprobe_bus.c:219-251 | accepts 0 and the three rails; refusals change nothing |
| `BusDetector.Detector.Inhibit` | src/mdioprobe_bus.c:253-260 | the depth moves by one and never below zero |
| `BusDetector.Detector.RailKnown` | src/mdioprobe_bus.c:198-217 | a rail is known if and only if it is forced, or the target is present and the last poll saw one or a forced level was withdrawn since; ready alone does not imply it |
| `BusDetector.ReadyWithoutRail` | src/mdioprobe_bus.c:130-131 | two good polls and a bad one: present without a rail |
| `CaptureSession.CountedCaptureIsExact` | src/mdioprobe_api.c:229-346 | a counted capture hands over exactly n frames however the ring answers, then -EPERM |
| `CaptureSession.OpenCaptureIsUnbounded` | src/mdioprobe_api.c:271-346 | an uncounted one hands over every frame and does not end by itself |
| `CaptureSession.Session.Begin` | src/mdioprobe_api.c:247-268 | past its guards a session starts at the live edge of the ring with the alignment re-armed and the passive layer raised |
| `CaptureSession.Session.Stop` | src/mdioprobe_api.c:286-299 | ends the session and drops the layer exactly once |
| `CaptureSession.Session.CaptureNext` | src/mdioprobe_api.c:301-346 | refused with -EPERM if and only if there is no session; a frame handed over decodes one more genuine delivery of the ring, nothing is delivered otherwise, a complete window is not missed, and a session ends with a frame if and only if it is counted and that is the last of its quota |
| `Session.Probe.SerialSetMode` | src/mdioprobe_serial.c:81-134 | which failing sub-step leaves which pins live; the mode changes only on success, and only then has a live driver the pad it shares with the master; the buffer is off either way, and the clocks of the master's fresh set-up stay inside |
| `Session.Probe.Boot` | src/mdioprobe_api.c:115 | the result of serial_init is ignored, so the session is safe after boot if and only if both pin sets could be parked |
| `Session.Probe.CaptureBegin` | src/mdioprobe_api.c:229-269 | its six outcomes in order; the session begins only on success; session safety is kept |
| `Session.Probe.CaptureNext` | src/mdioprobe_api.c:301-346 | taking frames keeps the session safe, whatever the ring delivers |
| `Session.Probe.CaptureStop` | src/mdioprobe_api.c:286-299 | ends a capture and keeps the session safe |
| `Session.Probe.ConnectorSetMode` | src/mdioprobe_api.c:524-532 | it succeeds exactly if no sub-step it needs fails; leaving MDIO ends a capture whether or not it succeeds, session safety survives every failure, no clock reaches the wire, and a driver left live has its pad if and only if the switch went through |
| `Session.Probe.Transact` | src/mdioprobe_mdio_master.c:774-793 | exactly one frame goes out on the wire, the buffer on and lingering after it; detector polls meanwhile see nothing |
| `Session.WireBitsAre` | src/mdioprobe_mdio_master.c:561-682 | the bits of a transaction, for every address and value, are 32 ones and what the capture path decodes as that write or that read |
| `Session.AnswerIs` | src/mdioprobe_mdio_master.c:647-674 | the answer of a read is the levels of the line at its clocks, and an error exactly as clock 47, the mode and the value say |
| `Session.Probe.BufferUp` | src/mdioprobe_mdio_master.c:711-733 | the master set up if it is not yet and the buffer on, with no clock let out |
| `Session.Probe.MasterXfer` | src/mdioprobe_api.c:405-435 | refused with no target, outside MDIO mode and with no rail, in this order; refused, or with a supply that faults, nothing reaches the wire; otherwise the supply is armed at the bus rail and the wire grows by 64 bits: 32 ones, then what the capture path decodes as that write, or on a quiet line as a read of that register; a read answers with the levels of its clocks 48 to 63 and -EIO as clock 47, the mode and the value say; presence, rail, depths and session safety are as before |
| `Session.Probe.SetClock` | src/mdioprobe_api.c:450-453 | in any safe session: clocks reach the wire if and only if the rate is accepted, the master is set up and the buffer is on; a live serial driver keeps its pad if and only if the rate is refused or the master is not set up |
| `Session.Probe.MeasureClock` | src/mdioprobe_mdio_master.c:522-540 | in any safe session: clocks reach the wire if and only if the master is set up and the buffer is on; a live serial driver keeps its pad if and only if the master is not set up |
| `Session.Probe.SetClockAfterTransaction` | src/mdioprobe_mdio_master.c:210-221 | setting the clock some quiet time after a transaction that went through: nothing but its frame reaches the wire if and only if the rate is refused or 20 ms have passed |
| `Session.Probe.SetClockInSerialMode` | src/mdioprobe_mdio_master.c:210-221 | a serial mode entered and the clock set: the driver loses the pin it shares with the master if and only if the rate is accepted |
| `Session.Probe.ForceLevel` | src/mdioprobe_bus.c:219-251 | accepted for 0 and the rails, and keeps the session safe |
| `Session.Probe.SupplySet` | src/mdioprobe_api.c:153-160 | refused below 1.8 V, changing nothing; otherwise the state machine's step, and the session stays safe |
| `Session.Probe.SupplyOff` | src/mdioprobe_api.c:162-165 | the supply is off and the session stays safe |
| `Session.Probe.DetectorPoll` | src/mdioprobe_bus.c:152-162 | a poll between calls keeps the session safe and is recorded |
| `Session.Probe.Quiet` | src/mdioprobe_mdio_master.c:735-772 | session safety survives quiet time with the DMA and the control tick running, and the buffer lingers as stated |
| `Autocal.Periods` | src/mdioprobe_autocal.c:171-176 | every period is the wrapped difference of neighbouring edges |
| `Autocal.Accept` | src/mdioprobe_autocal.c:185-195 | sum, count, least and greatest of exactly the periods inside the window |
| `Autocal.Measure` | src/mdioprobe_autocal.c:137-209 | the outcome as a function of the periods, for every function that sorts: too few edges, too few accepted, or the figures |
| `Autocal.SortedIsUnique` | src/mdioprobe_autocal.c:178-181 | two sorted arrays of the same values are equal, so it does not matter how qsort sorts |
| `Autocal.SortedOfKeeps` | src/mdioprobe_autocal.c:178-181 | the sorted array holds the same values |
| `AutocalTheorems.MajorityHoldsMedian` | src/mdioprobe_autocal.c:181 | if more than half of the periods lie in [a, b], so does the upper median |
| `AutocalTheorems.MedianIsUpper` | src/mdioprobe_autocal.c:178-181 | the median is a period that more than half are no longer than and at least half no shorter than |
| `AutocalTheorems.MajorityWins` | src/mdioprobe_autocal.c:171-208 | then the mean, the jitter and the rate reported are those of a clock between a - a/4 and b + b/4, whatever the other periods are |
| `AutocalTheorems.TightMajoritySucceeds` | src/mdioprobe_autocal.c:171-208 | a majority within a quarter of itself makes the measurement succeed with all of it accepted |
| `AutocalTheorems.DividesByZeroExactly` | src/mdioprobe_autocal.c:198-207 | the division by the sum is by zero if and only if the median period is zero |
| `AutocalTheorems.OverflowRejects` | src/mdioprobe_autocal.c:181-200 | when the upper limit wraps nothing is accepted and the measurement fails |
| `AutocalTheorems.PeriodsAreWrapSafe` | src/mdioprobe_autocal.c:173-175 | edges less than 2^32 ticks apart give their true distance across the wrap of the timer |
| `AutocalTheorems.TwoAreEnough` | src/mdioprobe_autocal.c:181-200 | the measurement fails exactly with fewer than two periods within a quarter of the median |
| `AutocalTheorems.FiguresAreThose` | src/mdioprobe_autocal.c:198-208 | the counts are those of the periods, mean and rate the quotients of the accepted sum, rounded down |
| `AutocalTheorems.SumWithout` | src/mdioprobe_autocal.c:185-195 | the sum is of the accepted periods, each with its own length wherever it stands |
| `AutocalTheorems.JitterIsThat` | src/mdioprobe_autocal.c:185-208 | the jitter is between the longest and the shortest accepted period |
| `AutocalTheorems.SteadyClockIsExact` | src/mdioprobe_autocal.c:171-208 | a steady clock is measured exactly: its period, no jitter, its rate in thousandths of a hertz |
| `AutocalTheorems.SlowerIsReportedSlower` | src/mdioprobe_autocal.c:198-208 | longer periods in the same window never give a shorter mean or a higher rate |
| `ChipTable.ParseHex` | scripts/gen_chipdb.py:784-785 | a zero-padded hex field has its width, parses back to its number, and holds no dash and no line break |
| `ChipTable.HexIsPositional` | scripts/gen_chipdb.py:784-785 | the digit i places from the right is that of sixteen to the i |
| `ChipTable.PopCount` | src/python/cli/cmd_probe.py:74-80 | the number of ones |
| `ChipTable.BitCountIsTheOnes` | src/python/cli/cmd_probe.py:74-80 | that number is how many positions hold a one |
| `ChipTable.MatchIsAgreement` | src/python/cli/cmd_probe.py:98-99 | the masked exclusive-or is zero if and only if the two numbers agree on every bit of the mask |
| `ChipTable.Walk` | src/python/cli/cmd_probe.py:55-71 | on a rendered table the boundaries found are those of the records that went in, in order, none lost and none added |
| `ChipTable.PhyColumns` | scripts/gen_chipdb.py:784 | a PHY record's columns hold its fields |
| `ChipTable.SwitchColumns` | scripts/gen_chipdb.py:785 | a switch record's columns hold its fields, at the offsets the reader uses |
| `ChipTable.HexishIs` | scripts/gen_chipdb.py:851-852 | an address column equals a printed number if and only if it holds that number; a dash never does |
| `ChipTable.LookupPhy` | src/python/cli/cmd_probe.py:83-105 | on any rendered table: of the records whose bits the identifier has wherever their mask is one, the first with the most mask bits, and none if and only if there is none |
| `ChipTable.LookupSwitch` | src/python/cli/cmd_probe.py:133-157 | exactly the records read by a plain access of that address and register whose product mask takes the value to their identifier, in order, each with its name and the masked revision where there is a mask |
| `Summary.Tally.Add` | src/python/cli/cmd_capture.py:49-72 | after any frames: reads, writes and the first eight distinct values exact for the first 48 distinct registers, the overflow mark exactly on more than eight, and dropped the number of frames on other registers |
| `SummaryTheorems.SummedIsThat` | src/python/cli/cmd_capture.py:45-72 | what is held of a register, told by the frames: how many reads and others it had, its distinct values or the first eight, the mark exactly on more than eight |
| `SummaryTheorems.CountsAreThose` | src/python/cli/cmd_capture.py:56-64 | the read count is the number of frames with operation 2 on that register, the write count of the others |
| `SummaryTheorems.InOrderOfAppearance` | src/python/cli/cmd_capture.py:49-72 | registers and values are listed in order of first appearance |
| `Summary.NothingIsLost` | src/python/cli/cmd_capture.py:45-72 | all counts and the dropped frames make up the frames seen, and nothing is dropped if and only if there are at most 48 registers |
| `Summary.RegistersAreThose` | src/python/cli/cmd_capture.py:49-58 | the registers listed are those of the frames, each once |
| `Summary.ValuesAreThose` | src/python/cli/cmd_capture.py:65-72 | the values kept of a register are those its frames carried, each once |
| `Summary.Listing.Flush` | src/python/cli/cmd_capture.py:170-178 | the line printed closes the run, and the lines then expand to all frames taken |
| `Summary.Listing.Take` | src/python/cli/cmd_capture.py:198-206 | one more frame lengthens the run or closes it and starts the next |
| `Summary.Render` | src/python/cli/cmd_capture.py:156-224 | the printed runs expand to exactly the frames taken, in order; no two neighbouring lines could have been one; line numbers, the count of bad frames and the tally are right; it stops early exactly at the first run that starts with the volume full |
| `SummaryTheorems.LinesSay` | src/python/cli/cmd_capture.py:156-224 | a line numbers its first frame from 1, and every frame it stands for is the one on it |
| `SummaryTheorems.LinesDiffer` | src/python/cli/cmd_capture.py:198-206 | no line is empty and no two neighbouring ones carry the same frame |
| `SummaryTheorems.BadAreThose` | src/python/cli/cmd_capture.py:156-224 | the count of bad frames is of those with an error mark |
| `SummaryTheorems.RoomyIsThat` | src/python/cli/cmd_capture.py:156-224 | the listing stops early exactly at the first frame that starts a run with the volume full |

## Left out

- Peripheral set-up (SPI, DMA, timers, comparators, DAC, ADC, pin modes): register writes with no logic.
- `mdioprobe_mdio_check_frame_alignment`: nothing calls it. The log line of each raw frame and the statistics other than the overrun count are not modelled.
- CaptureRing.Capture.Await: between a check of the cursor and the end of the copy the DMA is taken to make at most 8 transfers, the margin the code leaves itself, and between a resync and the next check at most 247, beyond which the loop need not end (`CaptureTheorems.SlackIsExact`); elsewhere it is unconstrained. A completed lap is invisible to the code, so deliveries after one are genuine stream bytes of a later lap.
- CaptureTheorems.FastPathExact: the four-byte fast path can lock a wrong offset (`CaptureTheorems.FastPathCanMislock`); `CaptureTheorems.OffsetIsRight` has when what it locked is right.
- CaptureRing.Dma.DumpRaw: nothing is said of the bytes the DMA comes round to while they are dumped; the source makes no promise of them.
- VregDriver.SupplyAtRail: the target is the rail only for the three standard rails; other values are folded as `src/mdioprobe_vreg.c:431-449` does.
- The analog behaviour of the supply (overshoot, leakage, stability): it depends on a plant outside the code.
- Tower.Switch.Read: after a failed access the model says only that the access happened or did not; a Clause 22 window write that failed happened or did not, and the Clause 45 ones promise nothing about the PHY after a failure except that the wire and the wiring are as before.
- Tower.Switch.ScratchRead: which index means what is family-specific and not part of this model.
- Addressing.Write: nothing is promised when an inner release was swallowed.
- AddressingTheorems.ExtPageOutcome: given what becomes of each of its four accesses; behind a switch, where one write is many wire accesses, which of those fail for which outcome is stated only for a PHY on the wire (`AddressingTheorems.ExtPageFailure`).
- AddressingTheorems.UndisturbedExactly: for numbers that are not selectors themselves (`AddressingTheorems.PagedReadBack` and `AddressingTheorems.ExtPageReadBack` have those), and not for Paged at page 7 of a PHY with extension pages, which shows whatever extension page was last selected. Nests have their laws in `NestingTheorems` to depth two, over a bottom bus; deeper ones are covered by `Addressing.Write` and `AddressingTheorems.BaseIsTransparent`.
- SwitchHw: a page other than 0 is taken to hide all registers but its selector, 13, 14 and the address/data pair among them, as `src/python/cli/cmd_probe.py:211-215` met it, and every register keeps what is written to it; read-only and self-clearing bits are not part of this model.
- AddressingTheorems.Armed: the post-increment modes of register 13 are not modelled; the code never selects them.
- Master.Pins.WriteFrame: order only, not time; the half-period is in `MdcClock`, and preemption by the zero-latency control tick, which stretches a half-period, is not modelled.
- MasterTheorems.ReadSeenByCapture: for a target that leaves the line alone until the last address bit; the gate that frames the 32 bits for the capture path is hardware set-up.
- `mdioprobe_mdio_master_probe`: a diagnostic.
- MdcClock.Clock.Trim: the floor and the resolution of the measurement are assumptions about the bit loop; nothing is said of a loop that resolves worse than 12 cycles, and one that resolves as well always makes sense to the calibration. The products are taken as unbounded integers; with half-periods up to 8500 cycles they are far inside 32 bits.
- Linger.Buffer.Release: due work runs on time unless a transaction holds the lock; a late work queue is not modelled.
- Session.Probe.SerialSetMode: a pinctrl call that fails is taken to leave its pins as they were, and the master's initialisation cannot fail, as its code returns 0 always.
- Session.Probe.MasterXfer: API calls are sequential, although `mdioprobe_c22_set_clock` takes no lock; a detector poll between the check of the rail and the inhibit, and control ticks during the frame itself, are not modelled.
- LED patterns, hold times and blinking; the connected and fault indications; the comparator threshold.
- Autocal.Measure: the library's qsort is any function that sorts; the timer clock is a parameter; the capture of the edges by DMA is not modelled.
- ChipTable.LookupPhy: for tables rendered from records whose fields fit their columns; what int() does with malformed digits is not modelled. `switch_probes`, `decode`, the scraping of the Linux sources and the sorting of the records would add only easy members.
- Summary.Render: an interrupt from the keyboard, which the source says cannot arrive, and the texts of the report.
- Null-pointer checks of the C entry points, and the range check of `Switch.__init__`: the model takes the values in range.
- Linux source scraping, the USB and mass-storage plumbing, the MicroPython binding, the console and its parser, boot and upload.
