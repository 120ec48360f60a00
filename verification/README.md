# An EtherCAT master, modelled and proved

This project models the EtherCAT master of the firmware: a Rust program that scans a ring of
servo drives, configures them, exchanges process data with them once per cycle and lets a
LinuxCNC host command them through an SPI frame, together with the host's C component and the
Python generator that lays out the process image both sides share. Everything here is a
theorem about the model, for every bus, every reply sequence and every interleaving that the
stated conditions allow. Bus tables, stream fields and sizes are parameters under validity
predicates; none of the generated constants is built in.

`dafny verify dfyconfig.toml` checks the whole project.

## How the layers meet

| layer | modules |
|---|---|
| bytes, frames | `Bytes`, `Datagram`, `EscPages`, `Coe` |
| one exchange on the wire | `Device`, `Link`, `Trace` |
| protocol steppers | `FsmChange`, `FsmCoe`, `FsmDc`, `PdoConfig`, `SlaveConfig`, `FsmSlaveConfig`, `ConfigSeq`, `PreOp`, `Scan`, `ScanSpec`, `ScanMeaning`, `Master` |
| what the slaves make of it | `Replay`, `ClockReplay`, `ObjectDictionary`, `OdReading`, `BusBringUp`, `LrwRing`, `Clocks` |
| cyclic engine | `Domain`, `EngineSpec`, `EngineProofs`, `EngineRuns`, `EngineProgress`, `EngineMonitor`, `Cyclic` |
| drives and host | `ProcessData`, `Cia402`, `MotionBuffer`, `MotionRuns`, `Crc`, `HostBridge`, `SafeState` |
| the Pi | `PiBridge`, `PiMotion`, `MotionLink` |
| the generator | `Layout`, `LayoutProofs`, `GeneratedBus` |

Objects whose methods change fields in the source are classes here (`Cyclic`, `EcDomain`,
`Bridge`, `MotionRing`, `Sequencer`, `FsmChange`, `FsmCoe`, `CoeSeq`, `FsmDc`,
`FsmSlaveConfig`, `ConfigSeq`, `PreOp`, `DownSeq`, `ScanFsm`, `Link`, `Master`, and the Pi's
`Component`). Each of their methods ties the new state to a function of the old one, and the
theorems are about those functions. The slaves and the wire are the environment: a send may
fail, a poll may return nothing, a foreign frame or any bytes whatever. `Device` keeps the frames
offered, the frames sent and, of its own accord, each payload received under the index of the
frame last sent; `Trace` reads from that what the bus has acknowledged. So a stepper's success is
a statement about the bus and not about its own variables. Every write that a slave takes, by
whatever command, is an event of the trace, with one exception: the first acknowledge of an error
during a state change, sent to its slave and naming its state (`Trace.OnlyAckSilent`).

Seven chains of results run through several layers.

1. *Bring-up.* Every write a slave acknowledges during a successful bring-up is the next one of
   a plan computed from its configuration (`FsmSlaveConfig.FsmSlaveConfig.Step`); replaying the
   plans of all slaves on a register and object-dictionary model leaves each FMMU, sync manager,
   clock register and PDO list, as the slave itself decodes it, as configured
   (`BusBringUp.BusConfiguredIff`, `BusBringUp.BusWindows`, `BusBringUp.BusClocks`,
   `OdReading.MappingsRead`);
   with the generator's layout this establishes the precondition of the cyclic exchange
   (`BusBringUp.BroughtUpBusIsReady`, `LrwRing.CyclicExchange`).
2. *Termination.* Each stepper has a step budget that shrinks at every poll on every reply
   sequence; the budgets compose up to `Master.Master.Run`, whose bound is a number computed
   from the request and the configuration.
3. *Scan.* The stepped scan sends the requests of the blocking one and finds the same slaves
   (`ScanSpec.SteppedRefinesBlocking`, `Scan.Rescan`); on a bus made of slaves with registers and
   an EEPROM, every field of every slave found is the word or byte it is named after
   (`ScanMeaning.SteppedDescribes`, `ScanMeaning.WorkingBusIsListed`).
4. *Safe state.* The controlword on the wire is the sequencer's, whatever the host staged, and
   Enable Operation goes out only when the host asks and nothing forces a stop
   (`SafeState.EnableOnWireIff`, `SafeState.StalledHostIsStopped`, `Cyclic.Cyclic.TickWithHost`).
5. *Setpoints.* What LinuxCNC sets on a streamed pin is what the drive's image holds on the
   tagged cycle (`PiMotion.Component.Update`, `MotionLink.FrameIsStep`,
   `MotionLink.SetpointsOnTime`, `MotionLink.StreamedPinShows`).
6. *The generated bus.* What 4 and 5 and the two frame codecs ask of the pin table, the drives and
   the stream is proved of every layout the generator resolves from a sound description, and the
   theorems are restated for it (`GeneratedBus.GeneratedSafeState`, `GeneratedBus.GeneratedStatus`,
   `GeneratedBus.GeneratedOutputs`, `GeneratedBus.GeneratedInputs`,
   `GeneratedBus.GeneratedStreamShows`).
7. *Supervision.* No slave counts as operational unless it was asked and has answered, and once all
   are, every window of 2N frames reads the status of each of N slaves, so one that drops
   out faults the engine within 2N + 1 answered cycles (`EngineRuns.PhaseSafety`,
   `EngineMonitor.AskedBeforeCounted`, `EngineMonitor.EveryWindowPolls`,
   `EngineMonitor.DroppedSlaveFaults`), and a faulted engine enables no drive.

The end results about what a slave holds or is asked give registers, commands, EEPROM words and
frame bytes by number, not by the constants the model itself is written with.

## What the proofs found

Where the code does not do what its documentation or its neighbours suggest, the model follows
the code and the exact condition is a lemma.

- A mapping of size 0 earns no working-counter increment although three per slave are expected,
  so a bus with one never reads complete: `LrwRing.WkcCompleteIff`.
- Only the first three FMMU channels are cleared at bring-up. A slave with more comes out
  configured exactly if the others were off before: `Replay.BringUpConfiguresIff`,
  `BusBringUp.BusConfiguredIff`.
- On a bus of one slave the engine never reads an AL status once operational: whatever state the
  slave falls into, the engine stays Operational. Every slave is looked after exactly if there are
  at least two: `EngineMonitor.PolledIff`, `EngineMonitor.SingleSlaveNeverFaults`.
- A CoE sequence silently drops writes past 36: `PdoConfig.PushAllIff`. A PDO or assignment list of
  more than 34 items therefore ends with a count of zero: `ObjectDictionary.ListsConfigured` says
  exactly which lists hold, and
  `OdReading.MappingsRead` which of them a slave reads back whole. An SDO init value that
  is empty turns into a complete-access request, and one of more than four bytes is cut:
  `Coe.DownloadUnderstoodIff`.
- The generator restarts its bit offset for every sync manager, so the pins of two in one direction
  collide (`LayoutProofs.TwoSmsApartIff`, `LayoutProofs.TwoSmsCollide`), and it reserves whole bytes
  by rounding down (`LayoutProofs.FitsReservedIff`).
- It accepts a motion entry that no output pin starts with, for which the Pi's header then carries
  the pin index -1, and one wider than a 32-bit HAL value, whose bytes the C shifts cannot make:
  `GeneratedBus.SourcedIff` and `GeneratedBus.StreamSizedIff` are the exact conditions,
  `GeneratedBus.UnsourcedMotion` an entry that breaks both.
- It does not see the type of a drive's words. The safe-state theorems hold of a generated bus
  exactly if no control- or statusword is a single bit: `GeneratedBus.GeneratedRigIff`.
- A datagram payload of 2048 bytes or more does not read back: `Datagram.BuildReadsBackIff`.
- The two scans part ways on an empty bus, where only the blocking one still clears addresses
  (`ScanSpec.EmptyBus`), and on more than 32 slaves, where the blocking one fails and the stepped
  one is done after the 32nd (`ScanSpec.TooMany`); where the slaves can be read they agree exactly
  on one to 32 of them (`ScanSpec.AgreeIff`). They also differ in their EEPROM poll limits (200 and
  400), which is why the refinement starts from a blocking scan that succeeds.
- The Pi resynchronises its tags by comparing 32-bit numbers; this is right exactly while tag and
  clock have wrapped equally often: `MotionLink.ResyncRightIff`.
- `ingest` checks length, magic and checksum, never the version byte: a frame of any version with
  a right seal is taken, to the same effect (`HostBridge.VersionNotRead`).
- A frame that is not EtherCAT in the receive ring ends the reception of that cycle: the expected
  reply is taken exactly if it is within reach of the polls and none before it comes up empty
  (`EngineRuns.ReplyTakenIff`; `EngineRuns.ForeignFirst` is the case that fails).
- The reference slave's start time is computed from whatever its time read brings, because neither
  the counter nor the length of that reply is looked at. The time is the slave's own exactly if
  the slave answered in full, or its clock reads zero (`Clocks.NowIsOwnIff`), and only then does the
  start lie ahead of it (`Clocks.StartAheadIff`); an unanswered read is taken for the time zero
  (`FsmDc.UnansweredTimeTaken`).
- An SDO response is matched by its kind alone: no change of index and subindex in it changes what
  it is taken for (`Coe.ObjectNotRead`). An upload returns the requested object's value, for every
  dictionary, exactly if the response taken names that object (`Coe.UploadRightIff`).
- Start times are 64-bit sums without a check: past the range they lie before now
  (`Clocks.StartIsNextBoundary`), and two slaves that should fire together do so exactly under the
  condition of `Clocks.StartsAgreeIff`.
- Section 5 of `docs/architecture.md` calls static clock compensation deferred; `dc.rs` does it,
  and so does this model.

## Model

| member | source | states |
|---|---|---|
| Datagram.Build | src/ethercat/datagram.rs:83-115 | The buffer ends up holding the frame of one datagram, padded to the Ethernet minimum, and nothing past it changes. |
| Datagram.Append | src/ethercat/datagram.rs:126-167 | On a buffer that holds the frame of any datagrams, it leaves the frame of those and the new one, within the buffer and the 11-bit region length. |
| Datagram.FindLast | src/ethercat/datagram.rs:126-167 | The length-word walk stops at the last datagram, at exactly the offset where it starts. |
| Datagram.WalkRoundTrip | src/ethercat/datagram.rs:83-229 | Following `next` from offset 2 over the frame of any datagrams, whatever bytes the receiver appends, yields exactly those datagrams, in order, payloads intact. |
| Datagram.WalkFrom | src/ethercat/datagram.rs:199-229 | The same from any datagram on: `next` is 0 only after the last. |
| Datagram.ParseInFrame | src/ethercat/datagram.rs:199-229 | The k-th datagram of a received frame parses to its command, index, payload and counter, and to the offset of the next one. |
| Datagram.AppendTouchesOnlyMore | src/ethercat/datagram.rs:126-167 | Appending leaves every byte of the datagrams already there alone, except the "more" bit of the last one. |
| Datagram.SlaveReadsFrame | src/ethercat/datagram.rs:83-167 | Every slave on the ring, reading each field from its own bytes, finds the k-th datagram of a frame whole where the ones before it end: command, index, both address words, length, payload and counter; and the frame header is of type 1 and announces just their length. |
| Datagram.BuildReadsBackIff | src/ethercat/datagram.rs:83-115 | One datagram reads back if and only if its payload is shorter than 2048 bytes. |
| EscPages.WriteFmmuPage | src/ethercat/fmmu_config.rs:24-37 | The sixteen bytes stored are the page of the mapping. |
| EscPages.FmmuRoundTrip | src/ethercat/fmmu_config.rs:24-37 | A slave that decodes the page sees exactly the mapping that was configured. |
| EscPages.WriteSmPage | src/ethercat/sync.rs:19-26 | The eight bytes stored are the sync-manager page. |
| EscPages.SmRoundTrip | src/ethercat/sync.rs:19-26 | A slave that decodes the eight bytes sees exactly the start, length, control byte and enable bit that were configured. |
| Coe.HeaderRoundTrip | src/ethercat/mailbox.rs:15-41 | A mailbox header parses back to the length, type and counter written, whatever follows it. |
| Coe.DownloadUnderstoodIff | src/ethercat/fsm_coe.rs:204-225 | A server that decodes the padded request gets exactly the index, subindex and data to be written if and only if there are one to four bytes of data. |
| Coe.UploadUnderstood | src/ethercat/fsm_coe.rs:204-225 | A server that decodes an upload request is asked for exactly that object, in a message that fills the whole mailbox of up to 256 bytes. |
| Coe.AbortTaken | src/ethercat/fsm_coe.rs:231-263 | The refusal of a server is reported as an abort with the code of the server, whatever was asked. |
| Coe.ObjectNotRead | src/ethercat/fsm_coe.rs:231-263 | Whatever three bytes stand in place of index and subindex, a response is taken for the same result or error. |
| Coe.UploadRightIff | src/ethercat/fsm_coe.rs:231-263 | An upload is sure to return the value of the object asked for, whatever the dictionary of the slave holds, if and only if the answer taken names that object. |
| Link.Link.Pump | src/ethercat/device.rs:137-163 | The first call puts exactly this frame on the wire, no later call sends anything; each later call uses up exactly one poll, and a reply is what that poll found, under the index sent; gives up exactly after the bounded number of attempts. |
| Link.Link.Ask | src/ethercat/fsm_change.rs:71-99 | The build-if-idle, pump, clear-on-reply step every stepper repeats: the request is sent once, with the first call; pending leaves the record alone and the budget smaller; a reply is the polled payload, adds exactly this exchange to the wire record and frees the link. |
| Device.Device.Poll | src/ethercat/device.rs:109-128 | Consumes exactly one received frame; a foreign, short or missing frame yields nothing. |
| Trace.OnlyAckSilent | src/ethercat/fsm_change.rs:147-178 | Of the addressed writes one slave takes, only an acknowledge of the pending change, to its slave and naming its state, is no event, and only one of each change. |
| FsmChange.FsmChange.Step | src/ethercat/fsm_change.rs:71-208 | Whatever the slave answers, the budget shrinks; success means the state was requested and then shown by the slave, and nothing else was taken but at most one acknowledge, addressed to this slave and naming this state; a failed step adds nothing, unless two slaves took the write, and the code it reports is what the slave gave as its AL status code. |
| FsmChange.FsmChange.ControlWord | src/ethercat/fsm_change.rs:71-178 | The AL control word sent names the state wanted, with bit 4 set exactly when an error is acknowledged. |
| FsmChange.FsmChange.TakeStatus | src/ethercat/fsm_change.rs:100-147 | A status reply completes the change only if it is an answered, error-free report of the target state. |
| FsmCoe.FsmCoe.Step | src/ethercat/fsm_coe.rs:101-201 | Budget shrinks on every reply; success means the request was taken by one slave, its outgoing mailbox was then seen full and a response accepted for it, and an upload returns what that last response carries; an abort reported is the one in the last response. |
| FsmCoe.FsmCoe.Asks | src/ethercat/fsm_coe.rs:101-201 | What the slave is sent: the request into the window it reads, reads of the status of its second sync manager at 0x080D, and a read of the whole window it writes. |
| FsmCoe.CoeSeq.Push | src/ethercat/fsm_coe.rs:307-319 | A full queue drops the write, otherwise it is appended, cut to four bytes. |
| FsmCoe.CoeSeq.Step | src/ethercat/fsm_coe.rs:322-340 | Success means every queued write has been taken and answered, in queue order, once each; the composed budget shrinks on every reply. |
| PdoConfig.PushAllIff | src/ethercat/fsm_coe.rs:307-319 | A sequence carries every write pushed if and only if there are at most 36. |
| PdoConfig.BuildMapping | src/ethercat/fsm_pdo_entry.rs:22-32 | The queue holds the mapping of the PDO: count cleared, each entry in its slot, count committed. |
| PdoConfig.BuildAssign | src/ethercat/fsm_pdo.rs:17-26 | The queue holds the assignment of the sync manager: count cleared, each PDO index in its slot, count committed. |
| PdoConfig.BuildInit | src/ethercat/fsm_slave_config.rs:127-138 | The queue holds the SDO init values in configured order, as far as it has room. |
| Clocks.OffsetAligns | src/ethercat/dc.rs:230-241 | The new offset makes the follower read the reference time at the sampled instant, whatever its raw counter, offset and the wrap of both. |
| Clocks.OffsetIsFixedIff | src/ethercat/dc.rs:230-241 | A second compensation leaves the offset alone if and only if the follower already agrees with the reference. |
| Clocks.StartIsNextBoundary | src/ethercat/dc.rs:385-389 | The start time is the least cycle boundary strictly later than now plus 100 ms, plus the shift, wherever that is a 64-bit time; elsewhere it lies before now. |
| Clocks.StartsAgreeIff | src/ethercat/dc.rs:385-389 | Slaves with equal cycle and shift fire on the same phase, whenever each was configured, if and only if both or neither of the two sums overflowed or the cycle divides 2^64. |
| Clocks.NowIsOwnIff | src/ethercat/dc.rs:274-286 | The time the reference path goes on with is the clock of the slave if and only if the slave answered the read in full, or its clock reads zero. |
| Clocks.StartAheadIff | src/ethercat/dc.rs:274-286 | Past its first nine seconds, the start computed on the reference path lies ahead of the slave if and only if the slave answered the read. |
| Clocks.DelayOfALine | src/ethercat/dc.rs:399-408 | A symmetric line is measured exactly if and only if its delay is plausible (at most 10 us). |
| Clocks.PortReadsIff | src/ethercat/dc.rs:413-432 | Two port-time reads in one frame are taken, the reference first and each with its four times in order, if and only if one slave answered each. |
| Clocks.ClockReadsIff | src/ethercat/dc.rs:436-455 | The combined clock read is taken as reference time, follower time and follower offset if and only if one slave answered each. |
| FsmDc.FsmDc.Step | src/ethercat/dc.rs:136-332 | Budget shrinks on every reply; success means exactly the compensation (or the reference latch and read), cycle times, start time and activation were acknowledged, with values computed from what the clocks said, the record telling whether the slave itself answered the reference read; a failed step adds nothing, unless two slaves took the write. |
| FsmDc.FsmDc.TakeNow | src/ethercat/dc.rs:274-286 | Any reply to the reference read that can be parsed is gone on with: the start is computed from its first eight bytes, or from zero if it is shorter, counted or not. |
| FsmDc.UnansweredTimeTaken | src/ethercat/dc.rs:274-286 | The read coming back unanswered parses, is not the time of the slave, and is taken for zero. |
| FsmDc.FollowerAligned | src/ethercat/dc.rs:136-332 | The bytes a follower is sent, decoded, align its clock with the reference and start it on the next boundary of that time base, wherever that is a 64-bit time. |
| ClockReplay.ClockConfigured | src/ethercat/dc.rs:289-332 | After the plan is replayed on the memory of a slave with a clock, the registers at 0x09A0 and 0x09A4 hold the two cycle times, 0x0990 the start time, 0x0980 the activation word, and for a follower 0x0920 the offset and 0x0928 the delay. |
| ClockReplay.ActivatedLast | src/ethercat/dc.rs:136-332 | The SYNC unit is off until nothing but its activation and the last state change remain, and by then cycles, start and, for a follower, offset and delay are in place. |
| ClockReplay.FollowerRuns | src/ethercat/dc.rs:230-332 | With what its registers hold after the plan, a follower reads the reference time at the sampled instant, and its first pulse falls on the next cycle boundary of that time past the margin, plus the shift, wherever that is a 64-bit time. |
| SlaveConfig.WriteIsNext | src/ethercat/fsm_slave_config.rs:95-259 | At every place where a register write is due, that write is exactly the next event of the plan. |
| SlaveConfig.QueueIsNext | src/ethercat/fsm_slave_config.rs:139-183 | At every place where a CoE sequence is due, its transfers are exactly the next events of the plan. |
| SlaveConfig.ChangeIsNext | src/ethercat/fsm_slave_config.rs:127-138 | At both state changes, the change is exactly the next part of the plan. |
| SlaveConfig.SkipIsFree | src/ethercat/fsm_slave_config.rs:147-183 | Moving past an exhausted list neither drops nor repeats an event of the plan. |
| SlaveConfig.Cases | src/ethercat/fsm_slave_config.rs:95-259 | At every place exactly one of the six kinds of activity is due: no place is stuck and none has a choice. |
| SlaveConfig.BeforeIsPrefix | src/ethercat/fsm_slave_config.rs:95-259 | From every place, what is due, done in turn, leads to the whole plan: what has been done before is a beginning of it. |
| FsmSlaveConfig.FsmSlaveConfig.Step | src/ethercat/fsm_slave_config.rs:95-259 | On success the bus has acknowledged exactly the plan of this slave: FMMU and DC clear, mailbox windows, PRE-OP, SDO inits, mappings, assignments, sync managers, watchdogs, FMMUs, DC, SAFE-OP; a failed step leaves a beginning of it on record, and at most the one write that two slaves took; the budget shrinks on every reply. |
| FsmSlaveConfig.FsmSlaveConfig.LinkedOnPlan | src/ethercat/fsm_slave_config.rs:95-259 | At every point of the bring-up, what is on record is a beginning of the plan of this slave, for some clock readings. |
| FsmSlaveConfig.FsmSlaveConfig.Fpwr | src/ethercat/fsm_slave_config.rs:267-284 | A register write counts as done only when exactly one slave took it; then the record has grown by it and the stepper stands at the next place. |
| FsmSlaveConfig.FsmSlaveConfig.RunChange | src/ethercat/fsm_slave_config.rs:287-296 | A completed state change puts the stepper at the next place with the change on record. |
| FsmSlaveConfig.FsmSlaveConfig.RunQueue | src/ethercat/fsm_slave_config.rs:299-311 | A completed sequence puts the stepper at the next place with every transfer of it on record. |
| ConfigSeq.ConfigSeq.Step | src/ethercat/master.rs:481-525 | On success the bus has acknowledged exactly the plans of all configured slaves in ring order, and the list handed to the cyclic engine is those slaves; a failure leaves the plans of the slaves before and a beginning of the next; the budget shrinks on every reply. |
| ConfigSeq.ConfigSeq.Begin | src/ethercat/master.rs:481-520 | A configured slave that the scan did not find ends the sequence; otherwise its bring-up starts with the clock context its place calls for. |
| ConfigSeq.CollectedIs | src/ethercat/master.rs:491-520 | Where all of up to 32 configured slaves are on the bus, each is handed to the cyclic engine under its own station and ring position, in order. |
| ConfigSeq.FindRing | src/ethercat/master.rs:491-497 | Finds a scanned slave at the ring position, and reports none only if there is none. |
| Replay.FmmusConfigured | src/ethercat/fsm_slave_config.rs:219-231 | After the plan is replayed on a slave memory, each configured FMMU channel holds the page of its mapping. |
| Replay.OtherChannels | src/ethercat/fsm_slave_config.rs:97-103 | A channel that is not configured is off if it is one of the first three, and is left as it was otherwise. |
| Replay.SmsConfigured | src/ethercat/fsm_slave_config.rs:184-205 | After the plan the slave decodes, at 0x0800 and eight bytes per number, each process-data sync manager as configured: start, length, control, enabled if it carries anything. |
| Replay.MailboxConfigured | src/ethercat/fsm_slave_config.rs:111-126 | After the plan the slave decodes its first two sync managers as the two mailbox windows, the one the master writes first, both enabled. |
| Replay.BringUpConfiguresIff | src/ethercat/fsm_slave_config.rs:95-259 | A slave comes out configured for the cyclic exchange if and only if its FMMU channels beyond the first three were off before. |
| Replay.WatchdogsConfigured | src/ethercat/fsm_slave_config.rs:206-218 | After the plan the watchdog divider at 0x0400 and the process-data watchdog at 0x0420 hold their values. |
| Replay.PlanOrder | src/ethercat/fsm_slave_config.rs:95-259 | Every mailbox transfer comes after PRE-OP has been shown, over mailbox windows set before it was asked for, and SAFE-OP is asked for and shown last. |
| Replay.ConfiguredBeforeSafeop | src/ethercat/fsm_slave_config.rs:240-259 | All registers past the AL control word are in their final state before SAFE-OP is asked for. |
| Replay.PreOpWindows | src/ethercat/master.rs:613-665 | A slave brought to a state by itself finds its mailbox windows set before the state is asked for, and has shown the state at the end. |
| ObjectDictionary.QueueWrites | src/ethercat/fsm_coe.rs:322-340 | A server that decodes the transfers of a sequence performs its writes one for one. |
| ObjectDictionary.ListWritten | src/ethercat/fsm_pdo_entry.rs:22-32 | Clear, fill, commit leaves the object listing exactly the items if they fit a sequence, and with a count of zero otherwise; no other object is touched. |
| ObjectDictionary.AllListed | src/ethercat/fsm_slave_config.rs:147-183 | Lists written to distinct objects do not disturb each other: at the end each object shows its own. |
| ObjectDictionary.ListsConfigured | src/ethercat/fsm_slave_config.rs:95-259 | After the bring-up every PDO lists exactly its configured entries and every sync manager exactly its PDOs, each if and only if it has at most 34 items; a longer list reads as empty. |
| OdReading.MappingsRead | src/ethercat/fsm_pdo_entry.rs:16-32 | After the bring-up, whatever its dictionary held before, the slave decodes from the mapping object of every PDO just the configured entries, index, subindex and length, if and only if there are at most 34. |
| OdReading.AssignmentsRead | src/ethercat/fsm_pdo.rs:17-26 | And from object 0x1C10 and its number up, for every sync manager, just the indices of its PDOs, under the same bound. |
| OdReading.InitHeld | src/ethercat/fsm_slave_config.rs:127-138 | Every SDO init value among the first 36, of one to four bytes and not written over by a later one or a list, is what the slave holds after its bring-up. |
| BusBringUp.PlanAddressed | src/ethercat/fsm_slave_config.rs:267-284 | A plan writes to its own slave only. |
| BusBringUp.BusConfiguredIff | src/ethercat/master.rs:481-525 | After the plans of the whole bus, each slave is configured for the cyclic exchange if and only if its FMMU channels beyond the first three were off before: no plan undoes another. |
| BusBringUp.BusWindows | src/ethercat/master.rs:481-525 | After the plans of the whole bus, each slave decodes in its sync managers the mailbox windows the scan read from it and its own process data. |
| BusBringUp.BusClocks | src/ethercat/master.rs:481-525 | After the plans of the whole bus, each clock holds its own cycle times, activation and a first pulse by the time of the reference for every other slave than the one at its position and by its own time there; and each follower its offset and delay. |
| BusBringUp.BusDictionary | src/ethercat/master.rs:481-525 | Over the bring-up of the whole bus, the dictionary of a slave takes its own plan and nothing else. |
| BusBringUp.ClocksFireTogether | src/ethercat/master.rs:481-525 | In the plans of the whole bus, any two slaves with equal cycle and shift are written start times on the same phase, whenever each was configured, under the exact overflow condition. |
| BusBringUp.ScanSeparates | src/ethercat/master.rs:491-501 | After a scan, configured slaves at different ring positions are addressed under different stations. |
| BusBringUp.BroughtUpBusIsReady | src/ethercat/master.rs:481-525 | A bus laid out by the generator and brought up by the master satisfies everything the cyclic exchange theorem asks for. |
| ScanSpec.SteppedRefinesBlocking | src/ethercat/fsm_scan.rs:148-346 | Wherever the blocking scan succeeds with at least one slave and the clear request is answered by a readable frame, the stepped scan asks the same requests in the same order, is done after exactly that many exchanges and has published the same slaves, with ring position i and station i + 1. |
| ScanSpec.SlavesMatch | src/ethercat/fsm_scan.rs:148-346 | From any slave on, the two scans stay in step to the end of the ring. |
| ScanSpec.WordMatches | src/ethercat/fsm_scan.rs:466-549 | One EEPROM word: the stepped reader gets what the blocking loop gets, by the same requests. |
| ScanSpec.AnswerLess | src/ethercat/fsm_scan.rs:148-247 | Every answered request brings the scan strictly closer to its end. |
| ScanSpec.ScanInOrder | src/ethercat/fsm_master.rs:48-62 | The blocking scan lists the slaves in ring order, one per ring position, or fails. |
| ScanSpec.EmptyBus | src/ethercat/fsm_master.rs:48-62 | On an empty bus the blocking scan still clears addresses, the stepped one does not. |
| ScanSpec.TooMany | src/ethercat/fsm_master.rs:48-62 | On more than 32 slaves the blocking scan fails, and the stepped scan, if the slaves can be read, is done after the 32nd with just those, in ring order. |
| ScanSpec.AgreeIff | src/ethercat/fsm_scan.rs:148-346 | Where the slaves the stepped scan would read can be read, the two scans send the same requests and find the same slaves if and only if one to 32 slaves were counted. |
| ScanSpec.SteppedReads | src/ethercat/fsm_scan.rs:148-346 | The stepped scan ends having read as many slaves as were counted, but at most 32, in ring order, each by the requests of the blocking scan of that slave. |
| ScanSpec.AnswerCounted | src/ethercat/fsm_scan.rs:320-346 | On every bus, whatever it answers, the slaves published so far are those before the current ring position, in ring order, never more than 32. |
| ScanMeaning.SteppedDescribes | src/ethercat/fsm_scan.rs:262-346 | On a bus made of slaves with registers and an EEPROM, however the stepped scan ends, it has listed them all, up to 32, each with vendor, product, revision, mailbox windows and protocols from their own EEPROM words, CoE by bit 2, and AL state and counts from their own registers. |
| ScanMeaning.BlockingDescribes | src/ethercat/fsm_slave_scan.rs:26-100 | A blocking scan of such a bus that succeeds has listed all of its slaves the same way. |
| ScanMeaning.SlaveDescribes | src/ethercat/fsm_slave_scan.rs:26-100 | One slave read where those before it have their addresses is that slave, field by field. |
| ScanMeaning.WorkingBusIsListed | src/ethercat/fsm_scan.rs:148-346 | Where one to 32 slaves answer in working order, both scans succeed by the same requests and list every one of them, field by field. |
| ScanMeaning.WorkingIsHonest | src/ethercat/fsm_sii.rs:27-80 | Slaves in working order are a bus of the kind the scan results speak of, so these are not about nothing. |
| Scan.ScanBlocking | src/ethercat/fsm_master.rs:48-62 | Whatever it reports without losing a frame is the scan, as specified, of the bus it met; of whatever slaves that is made, the list describes each by its own registers and EEPROM words. |
| Scan.ScanOne | src/ethercat/fsm_slave_scan.rs:26-100 | One slave: address, AL and DL state, six EEPROM words, by exactly the specified requests, and every field from its own register or word. |
| Scan.SiiReadU32 | src/ethercat/fsm_sii.rs:27-80 | The EEPROM word, by the command and at most 200 polls, or the specified failure. |
| Scan.ScanFsm.Step | src/ethercat/fsm_scan.rs:148-247 | Every answered request moves the stepper exactly as specified; without an answer nothing moves; the budget shrinks on every reply. |
| Scan.ScanFsm.TakeCompleted | src/ethercat/fsm_scan.rs:143-145 | Takes the published slave, and nothing else changes. |
| Scan.ScanFsm.FinishSlave | src/ethercat/fsm_scan.rs:320-346 | Publishes the slave, every field from the EEPROM word or register it was gathered from, and goes on to the next ring position, or is done. |
| Scan.Rescan | src/ethercat/master.rs:236-250 | The worker loop over a stepped scan ends on every bus; the list it returns is in ring order, at most 32 slaves, the one the stepped scan of the bus it met ends with, each described by its own registers and EEPROM words, and where the blocking scan of that bus finds slaves, the same list by the same requests. |
| PreOp.PreOp.Step | src/ethercat/master.rs:613-665 | Success means the slave took both mailbox windows, if the state needs them, and then showed the target; the budget shrinks on every reply. |
| PreOp.DownSeq.Step | src/ethercat/master.rs:550-571 | At the end every station has been asked to come down, in order, by a request offered to the wire, even if every slave failed; a station is reported down only once it has shown PRE-OP; the budget shrinks on every reply. |
| Master.Master.Begin | src/ethercat/master.rs:136-220 | Turns a request down exactly for an unknown slave or missing CoE and then changes nothing; otherwise the operation under way is the one asked for, on the right slave, with a budget within the bound of the request. |
| Master.Master.PollOp | src/ethercat/master.rs:224-324 | A pending operation stays the same operation and comes strictly closer to its end, whatever the bus did; what is reported as success is on record, and the slave list moves only as that operation says. |
| Master.Master.PollScan | src/ethercat/master.rs:238-250 | One poll moves scan and list by at most one answered request, exactly as the stepped scan does; the list grows by the slave just published, if there is room. |
| Master.Master.PollChange | src/ethercat/master.rs:251-258 | A state is reported reached, and the list updated, only with the windows and the change on record. |
| Master.Master.PollSdoState | src/ethercat/master.rs:259-277 | The transfer starts only once the slave is in a state with a mailbox, on the mailbox of that slave, with its own windows and change on record before it. |
| Master.Master.PollSdo | src/ethercat/master.rs:278-292 | A transfer is reported done only with request and response on record; an upload returns what the response carries. |
| Master.Master.PollStart | src/ethercat/master.rs:293-306 | The engine starts only when the bus has acknowledged the plans of all configured slaves, on exactly those slaves, none of them in OP yet. |
| Master.Master.PollStop | src/ethercat/master.rs:307-322 | The engine is dropped only after every slave it drove has been asked to come down, in order. |
| Master.Master.Run | src/ethercat/master.rs:136-324 | Every request ends within a bound computed from the request and the configuration, on every sequence of sends and replies. Success means: of a rescan, that the list is that of the scan of the bus met; of a state change, exactly the windows and change of that slave on record; of a transfer, exactly the windows, change and transfer on the mailbox of that slave, and the value the response carries; of a start, the plans of all configured slaves and an engine over just those; of a stop, that every driven station was asked to come down, in order. |
| Domain.EcDomain.constructor | src/ethercat/domain.rs:48-71 | Expects two counts per output and one per input FMMU, remembers the first 32 input ranges in order, and starts from an all-zero image. |
| Domain.EcDomain.BuildLrw | src/ethercat/domain.rs:95-98 | The buffer holds the frame of one LRW over the whole image. |
| Domain.EcDomain.ApplyReply | src/ethercat/domain.rs:102-117 | The image is the old one with the input ranges copied from the reply in order, each clipped to the image and skipped if the reply is short; the counter is judged against the expected one. |
| LrwRing.PassOne | src/ethercat/domain.rs:48-117 | A configured slave, going through all of its FMMU channels, moves exactly its own two areas and adds its own counts. |
| LrwRing.RingDelivers | src/ethercat/domain.rs:95-98 | Around the whole ring each slave receives exactly its own output bytes, and nothing else in it changes. |
| LrwRing.RingGathers | src/ethercat/domain.rs:102-117 | Each input region comes back holding its own slave memory. |
| LrwRing.ApplyKeeps | src/ethercat/domain.rs:102-117 | No reply whatever changes a byte outside the input ranges. |
| LrwRing.CyclicExchange | src/ethercat/domain.rs:48-117 | One exchange, frame to frame: the slaves take a logical read and write of the whole image from logical address zero; every slave output area holds its part of the image, every input region holds its slave memory, and every other byte of the image is as before. |
| LrwRing.WkcCompleteIff | src/ethercat/domain.rs:102-117 | The returned counter reads complete if and only if no slave has an empty mapping. |
| EngineProofs.SentIsDescribed | src/ethercat/cyclic.rs:486-596 | In every frame sent, the k-th bookkeeping entry describes the k-th datagram after the LRW: command, register, payload and the one slave it goes to, which is the slave at the OP cursor, the drift follower or the slave whose poll is due; there are never more than the list can hold. |
| EngineProofs.SentToSlaves | src/ethercat/cyclic.rs:583-596 | Of every frame sent, whatever follows, the slaves take first a logical read and write of the whole image from logical address zero on. |
| EngineProofs.SentFits | src/ethercat/cyclic.rs:583-596 | The frame never exceeds 562 bytes of the 576-byte buffer, nor the 11-bit region length. |
| EngineProofs.ReplyDecoded | src/ethercat/cyclic.rs:400-463 | A shape-preserving reply is decoded position by position against the kinds that were sent. |
| EngineRuns.PhaseSafety | src/ethercat/cyclic.rs:400-468 | Over every run, by what went over the wire: leaving Priming took three answered LRW replies in a row; Operational took, for every slave, a status read sent to its station and answered OP; Faulted took a status read to a driven slave, answered with an error or, once operational, with another state. |
| EngineRuns.ReplyTakenIff | src/ethercat/cyclic.rs:383-394 | The expected reply is taken in a cycle if and only if it is within reach of the polls and no poll before it comes up empty. |
| EngineRuns.ForeignFirst | src/ethercat/device.rs:109-128 | The same reply is taken when it comes alone and missed behind a frame that is not EtherCAT. |
| EngineRuns.FaultIff | src/ethercat/cyclic.rs:400-463 | A cycle ends Faulted if and only if it began so or took a reply with an answered bad status in it; a missing or uncounted reply never faults. |
| EngineRuns.FaultIsPermanent | src/ethercat/cyclic.rs:400-463 | Faulted is for ever. |
| EngineRuns.ActionsFlags | src/ethercat/cyclic.rs:623-662 | A slave is marked as in OP exactly by its own answered status read. |
| EngineRuns.DecodeMeaning | src/ethercat/cyclic.rs:623-662 | A reply marks a slave exactly if it is a counted, error-free OP answer to its own status read, and means a fault exactly if it is a counted bad status by the kind that was asked; an uncounted datagram means nothing. |
| EngineSpec.DcDiffReads | src/ethercat/cyclic.rs:668-675 | Every clock difference below 2^31 in magnitude, as register 0x092C shows it in sign and magnitude, is read as it is. |
| EngineRuns.LargestDrift | src/ethercat/cyclic.rs:440-455 | The largest drift shown is the largest by magnitude of those read and the one shown before. |
| EngineRuns.LastDrift | src/ethercat/cyclic.rs:440-455 | The drift shown is the last one read. |
| EngineRuns.RunCounts | src/ethercat/cyclic.rs:303-312 | Over any run the cycle number counts the cycles, in 32 bits. |
| EngineMonitor.EveryWindowPolls | src/ethercat/cyclic.rs:528-579 | In any run, among any 2N frames in a row that an engine for N slaves, two or more, sends while operational, there is for every slave one that reads its AL status at its station. |
| EngineMonitor.DriftEverySecond | src/ethercat/cyclic.rs:528-579 | Of any two such frames in a row just one reads the clock drift and the other the status of a slave, and both distribute the time of the reference clock. |
| EngineMonitor.DroppedSlaveFaults | src/ethercat/cyclic.rs:400-463 | An operational engine for N slaves, two or more, is Faulted at most 2N + 1 cycles after any one of them has left OP, if its frames are accepted and answered in the cycle that follows. |
| EngineMonitor.PolledIff | src/ethercat/cyclic.rs:528-579 | Among 2N frames in a row sent while operational there is a status read for every slave if and only if there are at least two slaves; with one there is none at all. |
| EngineMonitor.SingleSlaveNeverFaults | src/ethercat/cyclic.rs:528-579 | An operational engine for a single slave stays so for ever, whatever comes back. |
| EngineMonitor.AskedBeforeCounted | src/ethercat/cyclic.rs:486-519 | Over any run from the start, no slave counts as in OP, and the engine is not operational, unless a frame has asked that slave for OP. |
| EngineProgress.BoundedProgress | src/ethercat/cyclic.rs:262-271 | Against a bus that answers every cycle and reports OP, an engine for N slaves requests OP from the fourth cycle and is Operational exactly from cycle 2N + 4. |
| EngineSpec.SkipReached | src/ethercat/cyclic.rs:486-519 | The cursor stops at the first slave from there on that has not reached OP. |
| Cyclic.Cyclic.constructor | src/ethercat/cyclic.rs:180-214 | Starts in Priming over an all-zero image with the discovered drives. |
| Cyclic.Cyclic.Process | src/ethercat/cyclic.rs:400-463 | A received frame moves the engine as specified: inputs, counters, gate, decoded replies in build order, OP gate. |
| Cyclic.Cyclic.Receive | src/ethercat/cyclic.rs:383-394 | Polls as often as the receive ring is long, stops at the first poll that yields nothing, and processes at most the one frame with the expected index. |
| Cyclic.Cyclic.AppendOpRequest | src/ethercat/cyclic.rs:486-519 | Control or status read for the slave at the cursor, in the frame and in the bookkeeping alike. |
| Cyclic.Cyclic.AppendMonitor | src/ethercat/cyclic.rs:528-579 | Time distribution with drift read or AL poll in turn, in the frame and in the bookkeeping alike. |
| Cyclic.Cyclic.SendFrame | src/ethercat/cyclic.rs:583-596 | What goes out is the LRW over the image and the tail of this phase; a refused send leaves nothing outstanding. |
| Cyclic.Cyclic.Tick | src/ethercat/cyclic.rs:264-271 | One cycle without a host is the specified transition, bytes on the wire included. |
| Cyclic.Cyclic.ApplyDriveControl | src/ethercat/cyclic.rs:321-336 | The controlwords in the image are the sequencer words for this cycle, as specified. |
| Cyclic.Cyclic.TakeOutputs | src/ethercat/cyclic.rs:280-297 | Heartbeat, staged outputs and this cycle sample are taken in the specified order. |
| Cyclic.Cyclic.TickWithHost | src/ethercat/cyclic.rs:280-297 | One cycle with the host is the specified transition of engine, drives and bridge, bytes on the wire included. |
| SafeState.SafeStateOnWire | src/ethercat/cyclic.rs:280-336 | On a host quick-stop, 20 stalled heartbeats, a motion underrun or a faulted bus, no drive is sent Enable Operation, and an enabled drive without a fault is sent Quick Stop, whatever controlword the host staged. |
| SafeState.EnableOnWireIff | src/ethercat/cyclic.rs:321-336 | A drive is sent Enable Operation if and only if the host asks for it, nothing forces a stop, and the drive reports Switched On or Operation Enabled without a fault. |
| SafeState.TriggeredIff | src/ethercat/cyclic.rs:321-336 | The four reasons to stop are bit 2 of the host flags, twenty cycles without a heartbeat, an underrun of a ring that is streamed to, and a faulted bus. |
| SafeState.ResetOnWireIff | src/ethercat/cyclic.rs:321-336 | The fault-reset word goes out if and only if the drive reports a fault, the host asks for the reset, and the bit was low in the word before. |
| SafeState.WireWord | src/ethercat/cyclic.rs:280-336 | The controlword in the LRW that goes out is the sequencer word for the status of that drive, bit for bit. |
| SafeState.StatusFromTheBus | src/ethercat/cyclic.rs:280-336 | After any run of host frames and cycles, the status a drive is judged by is what the replies taken so far have laid into the input ranges: nothing the host sends reaches it. |
| SafeState.LastReplyDecides | src/ethercat/domain.rs:102-117 | A statusword inside an input range reads as in the last reply, whatever the image held before. |
| SafeState.RefusedUnseen | src/hal/host_bridge.rs:158-178 | Wherever a refused frame comes between frames and cycles, every frame sent is the one that would have been sent without it, and only the error count differs at the end. |
| SafeState.StalledHostIsStopped | src/ethercat/cyclic.rs:280-336 | However frames and cycles interleave, once the heartbeat has stood still for twenty cycles no later cycle enables a drive. |
| SafeState.PlayStalls | src/hal/host_bridge.rs:240-248 | Over any interleaving in which no accepted frame moves the heartbeat, the stall count is the number of cycles, up to the limit. |
| SafeState.NextKeeps | src/ethercat/cyclic.rs:280-297 | Every frame and every cycle keeps the buffer sizes, the image length and an attached host. |
| SafeState.ReplyTells | src/ethercat/cyclic.rs:338-378 | The reply staged by a cycle says byte by byte what is so: link, operational, fault and host timeout, both counters, the cycle number, the phase, and in byte 15 bus fault, drive fault, host timeout and underrun. |
| Cia402.DiscoverDrives | src/ethercat/cia402.rs:66-93 | Finds every output pin named as a controlword that has a statusword, in pin order, the first 32 of them, each with the first input statusword of the same prefix, and no other. |
| Cia402.Sequencer.Step | src/ethercat/cia402.rs:109-115 | Walking the drives leaves the image and the reset levels as specified. |
| Cia402.Sequencer.AnyFault | src/ethercat/cia402.rs:101-105 | True if and only if some drive reports a fault. |
| Cia402.StepCommands | src/ethercat/cia402.rs:109-115 | After the walk each drive carries the word its own incoming status calls for, whatever stood in the field before. |
| Cia402.EnableOnlyWhenAsked | src/ethercat/cia402.rs:126-174 | The word 0x000F is issued if and only if asked for, without quick-stop, to a drive that reports Switched On or Operation Enabled by the bits of its statusword. |
| Cia402.QuickStopCommands | src/ethercat/cia402.rs:126-174 | Under quick-stop no status whatever yields Enable Operation, and a drive that reports Operation Enabled is sent Quick Stop. |
| Cia402.LevelIsLastBit | src/ethercat/cia402.rs:126-174 | Over any run the remembered level is bit 7 of the last word written to that drive. |
| Cia402.ResetIsAnEdge | src/ethercat/cia402.rs:126-174 | Every fault-reset word is a rising edge: the word before it had bit 7 clear. |
| Cia402.HeldResetPulses | src/ethercat/cia402.rs:126-174 | While a fault persists and the reset is held, the edges come every second tick. |
| Cia402.EnableWalk | src/ethercat/cia402.rs:126-174 | With enable held, a drive automaton as in IEC 61800-7-201 climbs one state per transition, skips none, never falls back, and is in Operation Enabled exactly from the third transition on. |
| ProcessData.ReadValue | src/hal/process_data.rs:25-50 | The value read is the pin value the image holds, by the byte-wise loop. |
| ProcessData.WriteValue | src/hal/process_data.rs:53-76 | The image ends up as the pin write says, by the byte-wise loop. |
| ProcessData.ReadAfterWrite | src/hal/process_data.rs:25-76 | What is read back is the value written, modulo the pin width, sign-extended for S32, 0 or 1 for a bit. |
| ProcessData.WriteKeepsOthers | src/hal/process_data.rs:53-76 | Every pin that shares no bit with the one written reads as before. |
| ProcessData.LastWriteWins | src/hal/process_data.rs:53-76 | Of two writes to one pin the last one stands. |
| ProcessData.BitIsBinary | src/hal/process_data.rs:25-50 | Bit k of an image byte is its binary digit k, from the least significant one. |
| MotionBuffer.MotionRing.PushSample | src/hal/motion_buffer.rs:54-68 | Refuses exactly when 32 samples are queued; otherwise the sample joins the queue, cut or zero-filled. |
| MotionBuffer.MotionRing.DiscardStale | src/hal/motion_buffer.rs:79-86 | The loop drops exactly the leading samples whose tag lies before the current cycle. |
| MotionBuffer.MotionRing.PopSample | src/hal/motion_buffer.rs:79-95 | The circular buffer pops as the plain queue does, underrun flag included. |
| MotionRuns.WindowTags | src/hal/motion_buffer.rs:116-118 | Within half the tag range, 32-bit tags order and identify cycles faithfully. |
| MotionRuns.RunRefinesQueue | src/hal/motion_buffer.rs:54-95 | Over any run, what was handed out is exactly the punctual samples that left, each on its own cycle with its own payload; accepted equals delivered plus stale plus queued. |
| MotionRuns.PunctualIsDelivered | src/hal/motion_buffer.rs:54-95 | No punctual sample is lost: once its cycle has passed it has been handed out. |
| MotionRuns.UnderrunIff | src/hal/motion_buffer.rs:79-95 | After any run, the next pop raises an underrun if and only if something has been accepted and everything ever accepted is overdue: nothing is due now and nothing is queued for later. |
| Crc.ComputeCrc16 | src/hal/host_bridge.rs:349-364 | The nested loop computes the register after the message has been fed in. |
| Crc.CheckValue | src/hal/host_bridge.rs:349-364 | Of the digits 1 to 9 the checksum is 0x29B1, the check value of CRC-16/CCITT-FALSE. |
| Crc.UpdateFeedsBits | src/hal/host_bridge.rs:349-364 | The byte-wise loop is the bit-serial shift register fed with the message bit by bit. |
| Crc.ShiftsKeepNonzero | src/hal/host_bridge.rs:349-364 | The register step is invertible: no non-zero register ever drains to zero. |
| Crc.CollideIff | src/hal/host_bridge.rs:349-364 | Two messages of one length collide if and only if their difference leaves the zero register zero. |
| Crc.BurstDetected | src/hal/host_bridge.rs:349-364 | In messages of any length, every non-zero burst of at most 16 consecutive bits changes the checksum. |
| HostBridge.BurstRefused | src/hal/host_bridge.rs:158-178 | A valid frame altered by such a burst anywhere before its checksum changes nothing in the bridge but the error count. |
| HostBridge.VersionNotRead | src/hal/host_bridge.rs:158-210 | A frame with any version byte and a right seal is accepted, to the same effect as one of the shared version. |
| HostBridge.Bridge.IngestFrame | src/hal/host_bridge.rs:158-210 | Gates, fixed part and stream block leave the bridge as specified. |
| HostBridge.Bridge.PushStream | src/hal/host_bridge.rs:192-210 | The samples of the block are pushed in order, as many as the count byte says up to the cap. |
| HostBridge.Bridge.Apply | src/hal/host_bridge.rs:216-236 | The image is the staged outputs overlaid with the sample of this cycle, if there is one; nothing before the first valid frame. |
| HostBridge.Bridge.Watchdog | src/hal/host_bridge.rs:240-248 | Counts consecutive cycles without heartbeat, saturating, from the first valid frame on. |
| HostBridge.Bridge.StageReply | src/hal/host_bridge.rs:252-287 | The reply buffer holds the specified frame, sealed, over the inputs of the image. |
| PiBridge.PutLe | linuxcnc/teensy_ecat_bridge.c:86-90 | Stores exactly the low bytes of the value at the offset. |
| PiBridge.GetLe | linuxcnc/teensy_ecat_bridge.c:92-98 | Reads back the value of those bytes. |
| PiBridge.SerializeOut | linuxcnc/teensy_ecat_bridge.c:101-115 | One output pin: the frame changes as by the firmware write of that pin at its place in the frame. |
| PiBridge.AllSerialized | linuxcnc/teensy_ecat_bridge.c:219-221 | After all pins have been serialised each output pin holds its own value. |
| PiBridge.FirmwareAccepts | linuxcnc/teensy_ecat_bridge.c:195-226 | The firmware accepts every frame the Pi builds and takes from it exactly its flags, counters and outputs. |
| PiBridge.CommandsUnderstood | linuxcnc/teensy_ecat_bridge.c:195-226 | The firmware takes each request of the Pi, enable, fault reset and quick stop, for just what it is. |
| PiBridge.OutputsRoundTrip | linuxcnc/teensy_ecat_bridge.c:195-226 | What LinuxCNC sets on a pin is what the image holds there after the outputs are applied, cut to the pin width, unless a motion sample overlays it. |
| PiBridge.DeserializeIn | linuxcnc/teensy_ecat_bridge.c:118-132 | One input pin takes the value its bytes stand for. |
| PiBridge.DeserializedIsRead | linuxcnc/teensy_ecat_bridge.c:118-132 | A pin reads the same by the C shifts as by the firmware. |
| PiBridge.InputsRoundTrip | linuxcnc/teensy_ecat_bridge.c:234-261 | The Pi accepts every reply the firmware stages, each input pin shows what the firmware reads there, and the status pins show the engine. |
| PiMotion.Component.Update | linuxcnc/teensy_ecat_bridge.c:195-226 | The frame is header, every output pin, the stream block and the checksum, and the counters and the stream move on by one. |
| PiMotion.Component.BuildMotion | linuxcnc/teensy_ecat_bridge.c:139-181 | Over a zeroed block it lays down the batch: count, then that many samples with consecutive tags and the current setpoints. |
| PiMotion.Component.Hear | linuxcnc/teensy_ecat_bridge.c:234-257 | Only a sealed reply changes what the stream believes of ring depth and cycle; any other counts an error. |
| PiMotion.Want | linuxcnc/teensy_ecat_bridge.c:153-165 | A batch has at least one sample and never more than the frame has room for; a refill brings the believed depth to the target plus one, as far as the cap allows. |
| PiMotion.SourceFrom | scripts/generate_ethercat_config.py:537-546 | The pin that feeds a field is the first output pin at its image offset, and none only if there is none. |
| MotionLink.StreamTaken | src/hal/host_bridge.rs:192-210 | The ring takes in exactly the batch the Pi streamed, in order, tags and payloads intact. |
| MotionLink.FrameIsStep | linuxcnc/teensy_ecat_bridge.c:139-181 | One frame on the wire is one step of the stream: ring contents and next tag agree with the unwrapped cycle count. |
| MotionLink.ResyncRightIff | linuxcnc/teensy_ecat_bridge.c:149-151 | The resync yields the later of next tag and next cycle if and only if both have wrapped equally often. |
| MotionLink.SetpointsOnTime | src/hal/host_bridge.rs:186-236 | However frames and cycles interleave and whatever the Pi has heard, every setpoint the ring took in time is handed out, on its own cycle, and nothing else ever is. |
| MotionLink.StreamedPinShows | src/hal/host_bridge.rs:216-236 | On the cycle a setpoint is handed out, each streamed pin holds what LinuxCNC had set, cut to its width, whatever the immediate outputs say. |
| Layout.SmBytes | scripts/generate_ethercat_config.py:163-168 | The summing loop gives the whole bytes of all entries. |
| Layout.Resolve | scripts/generate_ethercat_config.py:171-289 | Succeeds if and only if every product is known with four sync managers, every motion entry is byte-aligned and no pin name repeats; then pins, fields, offsets, sizes, lead and batch cap are those of the walk; otherwise the error is that of the first slave in error, or the duplicate name. |
| Layout.PlaceAll | scripts/generate_ethercat_config.py:186-250 | The slave loop places every entry where the running offsets say, and stops exactly at the first slave that cannot be placed, with the error of that slave. |
| Layout.CheckUnique | scripts/generate_ethercat_config.py:257-264 | True if and only if no two pins share a name. |
| LayoutProofs.OutputsTile | scripts/generate_ethercat_config.py:171-289 | Every output byte lies in the region of exactly one slave. |
| LayoutProofs.InputsTile | scripts/generate_ethercat_config.py:171-289 | Every input byte lies in the region of exactly one slave. |
| LayoutProofs.PinsInOwnRegion | scripts/generate_ethercat_config.py:171-289 | Every pin lies inside the region of its slave and direction. |
| LayoutProofs.PinsApart | scripts/generate_ethercat_config.py:171-289 | No two pins of a bus of any number of slaves share a bit. |
| LayoutProofs.GeneratedFieldsInOrder | scripts/generate_ethercat_config.py:221-230 | Streamed fields follow one another in the sample and in the image, and stay inside the sample and the outputs. |
| LayoutProofs.PinBits | scripts/generate_ethercat_config.py:205-250 | Each pin starts at the very bit where the entries before it in its sync manager end, and is as wide as its entry. |
| LayoutProofs.FitsReservedIff | scripts/generate_ethercat_config.py:163-168 | The pins of a sync manager whose last entry has one stay within the bytes reserved for it if and only if its bits add up to whole bytes. |
| LayoutProofs.TwoSmsApartIff | scripts/generate_ethercat_config.py:205-231 | The pins of two sync managers laid from one cursor share no bit if and only if no two of their entries with pins do, counted from the start of each. |
| LayoutProofs.TwoSmsCollide | scripts/generate_ethercat_config.py:205-231 | If both begin with an entry that has a pin, the two tables collide. |
| LayoutProofs.LayoutGivesBus | scripts/generate_ethercat_config.py:317-400 | The rendered FMMU tables of any resolved bus meet the precondition of the cyclic exchange. |
| GeneratedBus.GeneratedPinsPlaced | scripts/generate_ethercat_config.py:171-289 | On every bus resolved from a sound description each pin is one the reads and writes handle, inside the image and its own half, and no two share a bit. |
| GeneratedBus.GeneratedTableOk | scripts/generate_ethercat_config.py:171-289 | The resolved pin table is one that both frame codecs work with. |
| GeneratedBus.GeneratedRigIff | src/ethercat/cia402.rs:66-93 | The drives discovered in a resolved table meet everything the safe-state results ask for if and only if no control- or statusword of theirs is a single bit. |
| GeneratedBus.GeneratedSafeState | src/ethercat/cyclic.rs:280-336 | On any such bus: under any stop cause no drive is sent Enable Operation and enabled healthy ones get Quick Stop; Enable Operation goes out if and only if it is asked for, nothing forces a stop and the drive is ready. |
| GeneratedBus.GeneratedStatus | src/ethercat/cyclic.rs:280-336 | On any such bus, over any run, a drive is judged by the statusword in the reply this cycle took, or by what earlier replies left if it took none, whatever the host staged. |
| GeneratedBus.InputIsCovered | src/ethercat/domain.rs:48-71 | Every input pin of a resolved bus lies in one of the ranges the domain copies back. |
| GeneratedBus.GeneratedOutputs | linuxcnc/teensy_ecat_bridge.c:195-226 | On any such bus, what LinuxCNC sets on an output pin is what the image holds there, cut to its width, unless a motion sample overlays it. |
| GeneratedBus.GeneratedInputs | linuxcnc/teensy_ecat_bridge.c:234-261 | On any such bus the Pi accepts every staged reply and each input pin shows what the firmware reads there. |
| GeneratedBus.SourcedIff | scripts/generate_ethercat_config.py:537-546 | The Pi has a pin for every field of a resolved layout if and only if every motion entry starts where some output pin does. |
| GeneratedBus.StreamSizedIff | scripts/generate_ethercat_config.py:221-275 | The fields hold no more than a HAL value, and a batch at least one sample, if and only if no motion entry is wider than 32 bits and they are not all empty. |
| GeneratedBus.UnsourcedMotion | scripts/generate_ethercat_config.py:221-230 | The generator accepts a 64-bit motion entry without a pin, and then neither holds. |
| GeneratedBus.GeneratedStreamOk | scripts/generate_ethercat_config.py:205-275 | Where every motion entry is a pin of its own, each field has its pin, of its own width, and the loops of the Pi stay inside the block. |
| GeneratedBus.GeneratedStreamShows | src/hal/host_bridge.rs:216-236 | On any such bus, on the cycle a setpoint is handed out, each streamed pin shows what LinuxCNC had set. |

## Left out

- Steppers hold the transmit buffer as the list of datagrams it encodes, with pump and buffer in one `Link`; that `Build` and `Append` lay exactly this frame into a byte buffer is proved in `Datagram`. Only the cyclic engine, the domain, the bridge and the Pi work on byte arrays throughout.
- Receive buffers are values; a `Device` is a script of send outcomes and received frames chosen by the environment, cut to the buffer size as the source does.
- ScanMeaning.SteppedDescribes: AL status and data-link bytes of a slave stand still during the scan, and every request on record has reached every slave; what a scan of a bus with lost addresses lists is covered by the refinement and order results only.
- ScanFsm: it shares one `Link` with its EEPROM reader, and the six EEPROM words of the slave being scanned are a list instead of named fields.
- ConfigSeq: it captures the slave list when it begins; no other operation can run while it does.
- EcDomain: the image array has the used length instead of 512 bytes of which a part is used; the FMMUs of all slaves come as one list.
- Resolve: PDOs are flattened into one entry list per sync manager; XML and ESI parsing are not modelled, and a lead below one counts as none.
- MotionRuns.RunRefinesQueue: asks the host to push in increasing due order and queued samples to lie within half the tag range at each pop; `MotionLink` shows when the Pi keeps that promise.
- MotionRing: its rows are values in an array of sequences.
- Master.Begin: a requested AL state is one of the sixteen the register can show; the command line only passes INIT, PRE-OP, SAFE-OP and OP.
- MotionLink.SetpointsOnTime: assumes that stream and clock have wrapped equally often, which is the exact condition of `MotionLink.ResyncRightIff`, and that the queue is within half the tag range at a pop.
- Cia402.EnableWalk: starts from Switch On Disabled; leaving Quick Stop Active depends on a drive option and is not modelled.
- BoundedProgress: the bus answers every cycle; what the engine does on lossy buses is covered by the phase safety results, not by a bound.
- PiMotion.Component.Update: the pin table has a pin for every field and no field wider than four bytes; `GeneratedBus.SourcedIff` and `GeneratedBus.StreamSizedIff` say of which bus descriptions that is true. Elsewhere the C code indexes before its table or shifts a word by its width or more, which C does not define.
- GeneratedBus.GeneratedSafeState: a sound description has one sync manager per direction of whole bytes, and pins of one bit or of whole bytes up to 32 bits on byte boundaries.
- PiBridge: a HAL value is an integer of its pin type; the C checksum is modelled by the same method as the firmware one.
- Late replies whose 8-bit index has come round again: the source accepts this as a limit; a reply is taken by index alone here too, and what it then means is what its bytes say.
- RTIC scheduling, locks, USB and SPI transfer: each handler appears as one atomic step, and the steps interleave in any order; a failed SPI transfer is a step that does not happen.
- Board code, network drivers, command line, trace lines, latency and rate statistics, status text, pin lookup by name and the crash log: plumbing without a property of its own.
- W5500, Modbus and register generation: not part of the firmware path.
