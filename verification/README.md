# Verified model of the STICKER firmware core

STICKER is sensor firmware. This project models its stateful components in Dafny, in the form the C and
JavaScript sources have them, and proves what each of them is for. One module per component; every module is
in the file of its name, and `dafny verify dfyconfig.toml` checks them all.

## What is modelled

- **History store** (`app/src/app_history.c`). `FlashDevice` is a flash of 2 KB pages: erase sets a page free,
  a header, a fix-up and a double word may each be programmed once, and every operation may fail and then
  changes nothing. `HistoryFlash.FlashRing` is the page ring on it, with the source's fields and loops; its
  methods are proved against step functions on the value `FlashRingState.Ring`, whose invariant `Valid` ties
  live pages, staged tail, headers, sequence numbers, segment times and flash contents together. `FlashMount`
  proves what a mount makes of a flash after power loss. `HistoryRam` is the RAM ring with its four-entry
  segment table. `Segments` is what both show of themselves, segments with a time grid, and the stamp (time,
  clock, boot) that each record gets from them; `FlashTimes` follows the stamps of the flash ring through
  append, clock sync and reboot. `HistoryExport` is the layer above both: time windows, frames, the replay
  cursor, the frame count. The page CRCs are arbitrary functions; a record is `size` bytes.
- **Alarm engine** (`app/src/app_alarm.c`). `AlarmRuleLatch` is one rule's latch (threshold with deadband, edge,
  level, motion, stillness, tumbling-window rate), `AlarmWatchdogs` the no-data, mismatch and low-battery
  latches, `AlarmLimits`, `AlarmRates`, `AlarmRuns` and `AlarmStates` what threshold, rate and state
  rules do over whole runs of readings, `AlarmEngine` the poll, the event path and the active mask, `AlarmBatch` the batch, window and hold
  machine that pages edges into radio frames.
- **Paging** (`app/src/app_compose.c`, `app/src/app_cmd.c`). `Protobuf` gives field sizes, `Wire` the
  encodings they are sizes of, in the form the server's decoder reads. `ComposeSpec` and
  `Compose` are the telemetry composer with its two passes, `Paging`, `CmdPages` and `ConfigDump` the command
  answers, `PageStream` the stream that sends their pages one by one.
- **CCM and CMAC** (`app/src/app_ccm.c`) over an arbitrary block cipher: `Ccm` against RFC 3610, `Cmac` against
  RFC 4493.
- **Downlink codec** (`app/decoder/ttn.js`): `DownlinkCodec`.
- **Buzzer** (`app/src/app_buzzer.c`): `Buzzer`, a state machine over the steps of the playback thread and of its
  callers, with every interleaving a run.
- **Rule cache and SetParam** (`app/src/app_alarm_rules.c`, `app/src/app_cmd.c`): `AlarmRules`.
- **Configuration migration** (`app/src/app_config.c`): `ConfigMigration`.

Readings, clocks, radio budget, free radio slots, hold time, the sensor registry and the configuration's field
checks are inputs. Sensor values are reals, times and ordinals are natural numbers, and 32-bit arithmetic is
written out where the source relies on it (segment times, fix-up offsets, base times, the no-data clock, the
varint reader).

## How to read the contracts

- A ring step keeps records in one of three ways: `KeepsAll` (every record that could be read still can),
  `KeepsStored` (except those given up: evicted, or on an oldest page already erased), `KeepsDurable` (the same of
  records that were on flash in full). `Intact` says that the bytes of a record are where a read looks for them;
  `ReadRec` is what a read then gives, `ReadExact` says when that is the record. The device counts its failed
  operations in `faults`, and every failure of the ring is tied to one.
- An alarm step is an `Outcome`: the next latch and the edges queued. `Synced`, `Limited`, `Counted`, `Evaluated`,
  `Swept` give the outcome of each step and the latch methods are proved equal to them. `Past` records what a latch
  has queued, evaluated and started; its exact new value is part of every contract, and a `Trace` is a latch with its
  past. The alternation, confirm and spacing properties are the latch invariant `LatchOk`, kept by all steps;
  `AlarmLimits`, `AlarmRates`, `AlarmRuns`, `AlarmStates` and `AlarmEngine.Engine.RunAlternates` state them of whole runs.
  `LimitSteps` says what a threshold step means without the function that computes it.
- `HasStamp` says what time, clock and boot a stored record has by the segments alone; `KeepsStamps`, `MovesStamps`
  and `Restamps` what an append, a clock sync and a reboot make of it, `Captured` what a captured record gets.
- Layouts compare sizes, as the source does; `FrameLength`, `ReportLength` and `ResponseLength` prove them the
  lengths of `OnAir`, `ReportEnc` and `ResponseEnc`, and the budget properties speak of those bytes.
- The batch is a `State`, its flush the function `Flushing`, and `Queueing` what an edge makes of it. The methods of
  `AlarmBatch.Batch` are proved equal to these, the lemmas beside them say what they mean.
- A layout is a function (`Pages`, `PackPage`, `LayOut`) that the loops compute, and the partition and budget
  properties are lemmas about it.

## Where the code does not do what its documentation says

The model follows the code. In each case the condition under which the promise holds is proved.

- A batch that is flushed after the clock became known, and then held because the radio has too few free slots,
  keeps its shifted base time but not the note that it was shifted; the next flush shifts it again.
  `AlarmBatch.FlushAnchored` states exactly when the base time stays right, `AlarmBatch.ShiftedTwice` is a run of
  calls that sends a wrong one.
- Reading past what was written to a page is refused (`app/src/app_history.c:373-379`), but only on the head page.
  A failed program drops the staged bytes of records that are counted already
  (`app/src/app_history.c:711-733`); once the next page is open, those records are read with erased bytes and without
  an error, and exported so. `FlashRingState.ReadExact` states exactly when a read gives the record that was
  appended, `DroppedReadsErased` and `HistoryExport.DroppedExported` what such a failure leaves.
  `HistoryExport.FlashSound` says that without a flash error it does not happen.
- A downlink is to decode to what it was encoded from (`app/decoder/ttn.js:1172-1174`). The decoder has no branch for
  buzzer_play and get_radio_state, whose members the encoder writes: `DownlinkCodec.RoundTrip`, `PageLost`.
- SetParam is to answer with a fault when a rule of the batch is invalid and therefore dropped
  (`app/src/app_cmd.c:541-545`). It compares a number of wrong rules with the number of rules that were stale
  before, so an invalid rule that replaces a stale one is dropped and acknowledged. `AlarmRules.RuleStore.SetParam`
  states when a batch is acknowledged, `AckDropsNothing` and `InvalidRuleAcknowledged` when a rule is lost.
- A slot discontinuity closes the head page and pads its staged bytes. If no page is opened afterwards, a mount
  counts a record of padding if and only if one fits the padding (`FlashMount.EarlyCloseMakesPhantom`).
- A logical reset is not written to flash until the next append, so a reboot in between brings the records back
  (`FlashMount.ResetUndoneByReboot`). Once a page was written after the reset, a mount never chains to older ones:
  the sequence number burnt by the reset is part of the ring invariant `RebootRecovers` starts from.
- A buzzer stop misses a request that the thread has taken from the queue but not begun (`Buzzer.StopMisses`).
- With a 13-byte nonce the CCM length field holds two bytes, and the code does not refuse longer messages
  (`Ccm.BigEndianReads`).

## Model

| member | source | states |
|---|---|---|
| FlashDevice.Flash.ProgramDw | app/src/app_history.c:260-266 | a double word is programmed only while erased, so never twice between erases of its page; a failure changes nothing and is counted |
| FlashDevice.ProgramAppends | app/src/app_history.c:363-396 | programming the double word at the write head appends exactly its seven data bytes to the page's stream |
| HistoryFlash.FlashRing.Boot | app/src/app_history.c:499-523 | RAM of a boot; on a blank partition it is a valid empty ring |
| HistoryFlash.FlashRing.FlushStagePad | app/src/app_history.c:398-423 | the staged bytes go out in one padded double word or nothing changes; headers stay, and every readable record stays readable |
| HistoryFlash.FlashRing.EraseNext | app/src/app_history.c:427-461 | the head is closed durably before the next page is erased; only records of the page erased can lose bytes, also when the erase fails |
| HistoryFlash.FlashRing.AdvancePage | app/src/app_history.c:427-497 | rollover: the oldest ordinal rises by exactly `evicted`, the contents lose exactly that front, the live pages stay a consecutive cyclic run ending at the new page; it fails exactly when one device operation did, and then evicts nothing and changes no live page |
| HistoryFlash.FlashRing.StreamBytes | app/src/app_history.c:706-735 | the record's bytes are appended to the head page's stream seven to a double word; after a failed program the stream ends inside what was to be written and nothing is staged |
| HistoryFlash.FlashRing.WriteRecord | app/src/app_history.c:700-753 | the new record gets the next ordinal and is readable, all readable ones stay so, and padding a full page never makes a record; it fails only when a device operation did, and then moves no ordinal and costs no record that was on flash in full |
| HistoryFlash.FlashRing.CloseHead | app/src/app_history.c:683-690 | closing the head on a slot discontinuity keeps every readable record |
| HistoryFlash.FlashRing.OpenHead | app/src/app_history.c:678-699 | an open head page with room: unchanged, or a page opened as `OpenedLive` says; refused during a replay exactly when a rollover is due, failed otherwise only when a device operation failed |
| HistoryFlash.FlashRing.Append | app/src/app_history.c:671-754 | bounded FIFO by absolute ordinal: contents lose `evicted` records in front and gain the new one behind; every stored record that could be read still can, the new one too; on any failure no ordinal moves and all that was on flash in full and is not given up stays readable; the exact condition of every refusal, and a flash error only if a device operation failed; without one, a ring that can read everything it stores stays so; the record that opens a page has the time and clock given, any other the next time of the grid, and no other record gets another time |
| HistoryFlash.FlashRing.NextTime | app/src/app_history.c:1327-1342 | when the next record is due, by the newest segment if it is of this boot |
| HistoryFlash.FlashRing.Capture | app/src/app_history.c:1350-1359 | a record captured for a slot gets that slot's time, to half an interval and in its clock, whether it continues the grid or opens a page; without a slot exactly the grid's time or the clock's; no other record gets another time |
| FlashRingState.FifoRun | app/src/app_history.c:671-770 | over any run of appends that met no flash error the ring holds the newest of all records ever given to it, oldest first under consecutive ordinals, and each reads back as it was appended |
| HistoryFlash.FlashRing.PageReadStream | app/src/app_history.c:363-396 | exact result: bytes of the page at their place, staged tail of the head included; only the head page refuses a read past what was written to it, a page behind it answers with erased bytes |
| HistoryFlash.FlashRing.FindPage | app/src/app_history.c:756-766 | the newest page that starts at or before the ordinal |
| HistoryFlash.FlashRing.Read | app/src/app_history.c:756-770 | exact result `ReadRec`: refused outside the ring, and on the head page when a byte is missing; otherwise what the page holds at the record's place |
| HistoryFlash.FlashRing.ResetLogical | app/src/app_history.c:842-866 | all records dropped without an erase, ordinals not rewound, one sequence number burnt, the ring valid |
| HistoryFlash.FlashRing.Clear | app/src/app_history.c:868-875 | erase the partition, or fail to, then reset; nothing happens without a device |
| HistoryFlash.FlashRing.OnClockSync | app/src/app_history.c:799-808 | every page stamped on this boot's uptime gets a unix base time and a pending fix-up, every other page is left alone, no record loses a byte; exactly the records stamped on this boot's uptime have their time moved by the offset, in 32 bits, and are marked synced |
| HistoryFlash.FlashRing.FlushFixUps | app/src/app_history.c:814-840 | every pending fix-up is tried once: unless a device operation failed each is on flash, and a mount computes from it exactly the base time RAM has; no record's time changes |
| HistoryFlash.FlashRing.FindHead | app/src/app_history.c:544-585 | the newest page of the current layout, and the newest of any layout, among the valid headers |
| HistoryFlash.FlashRing.WalkChain | app/src/app_history.c:586-624 | the backward walk collects exactly the maximal run of pages whose sequence numbers and layout continue |
| HistoryFlash.FlashRing.Mount | app/src/app_history.c:544-669 | the mounted ring is the function `Mounted` of the flash alone; valid if no page of another layout is newer than its head; with no page of the layout the ring is empty and valid |
| HistoryFlash.FlashRing.Reboot | app/src/app_history.c:544-669 | power loss forgets every RAM field; a mount with the same layout then recovers the records as `Recovers` says; each record back has the time it had if and only if that time is on flash, in its page's header or fix-up, and counts as one of an earlier boot |
| FlashRingState.PageOfIs | app/src/app_history.c:756-766 | the page a read picks is the only one whose ordinals cover the record |
| FlashRingState.IntactRead | app/src/app_history.c:756-770 | a record whose bytes are in place lies at offset (abs - first) * size of its page's stream, whichever step was taken last |
| FlashRingState.ReadRecIs | app/src/app_history.c:363-396 | a read of a stored record fails if and only if it is on the head page and a byte of it is missing; a record whose bytes are in place is read as it was appended |
| FlashRingState.ReadExact | app/src/app_history.c:363-396 | a read gives the record as appended if and only if its bytes are in place, or it is behind the head page and every missing byte of it is an erased one |
| FlashRingState.DroppedReadsErased | app/src/app_history.c:706-735 | after a failed program that dropped staged bytes and the next rollover, every counted record with a byte only in the stage reads back without an error, its last byte erased |
| FlashRingState.CommitStep | app/src/app_history.c:736-753 | ring invariant over a completed record |
| FlashRingState.CommitNoPhantom | app/src/app_history.c:736-753 | padding after a page is full never leaves room for a record nobody wrote |
| FlashRingState.DropStep | app/src/app_history.c:709-735 | write-failure containment: dropping the staged bytes keeps the invariant and every record that was on flash in full |
| FlashRingState.EraseStep | app/src/app_history.c:449-461 | erasing the next page keeps the invariant; only records of the page erased lose anything |
| FlashRingState.OpenStep | app/src/app_history.c:462-497 | opening the erased page keeps the invariant, evicts exactly the erased page's records and no other |
| FlashRingState.SyncStep | app/src/app_history.c:799-808 | a clock sync changes times only |
| FlashRingState.FixUpStep | app/src/app_history.c:814-840 | a written fix-up makes the durable time the one in RAM |
| FlashRingState.ResetValid | app/src/app_history.c:842-866 | a reset leaves a valid ring: burning a sequence number keeps the next page from chaining to the last one before the reset |
| FlashRingState.SegmentsPartition | app/src/app_history.c:787-797 | the live pages, seen as segments, partition the stored ordinals in order |
| FlashTimes.AppendStamps | app/src/app_history.c:787-797 | seen through the segments: an append changes the time of no record that stays, a record that opens a page has the time and clock given with it, any other continues the grid |
| FlashTimes.SyncStamps | app/src/app_history.c:799-808 | seen through the segments: a clock sync adds the offset, in 32 bits, to exactly the times that were this boot's uptime, and marks them synced |
| FlashTimes.RebootStamps | app/src/app_history.c:586-669 | a record that is back after a reboot has the time and clock it had if and only if they are on flash |
| FlashMount.MountedValid | app/src/app_history.c:586-669 | a mount on clean flash gives a ring that keeps every invariant |
| FlashMount.RebootRecovers | app/src/app_history.c:544-669 | reboot recovery: the head found is the page written last, the chain is exactly the live pages (less one erased already), never across a reset; behind the head all records are back unchanged, on the head page exactly those flushed in full; a record nobody wrote is counted if and only if the head ends in one record's worth of padding |
| FlashMount.PhantomNeedsPadding | app/src/app_history.c:640-669 | such a record is possible only on a closed page and for records shorter than a double word's data |
| FlashMount.EarlyCloseMakesPhantom | app/src/app_history.c:683-690 | closing a page early over-counts after a reboot if and only if staged bytes plus one record fit the padded double word |
| FlashMount.FreshSequenceNumber | app/src/app_history.c:544-585 | the next sequence number is above all others if and only if no page of another layout is newer than the mounted head |
| FlashMount.ResetUndoneByReboot | app/src/app_history.c:842-866 | a logical reset lives in RAM: a reboot before the next append brings all records back |
| HistoryRam.RamRing.Append | app/src/app_history.c:932-975 | the oldest ordinal rises by exactly `evicted`, the survivors keep bytes, ordinals and time entry, the new record opens an entry or joins the newest; what may evict, and how much; the record that opens an entry has the time and clock given, any other the next time of the grid, and no other record gets another time |
| HistoryRam.AppendStamps | app/src/app_history.c:999-1006 | seen through the segments: what an append of the RAM ring makes of all times |
| HistoryRam.RamRing.OnClockSync | app/src/app_history.c:1482-1520 | exactly the times that were uptime are moved by the offset, in 32 bits, and marked synced |
| HistoryRam.RamRing.NextTime | app/src/app_history.c:1327-1342 | when the next record is due |
| HistoryRam.RamRing.Capture | app/src/app_history.c:1350-1359 | the same of a capture into the RAM ring as into flash |
| Segments.OneStamp | app/src/app_history.c:1038-1041 | every stored record has exactly one time, clock and boot |
| Segments.PlannedStamp | app/src/app_history.c:1428-1470 | a record captured by this plan has the time of its slot, to half an interval, or without a slot the grid's or the clock's |
| HistoryRam.RamRing.OpenSegment | app/src/app_history.c:936-951 | a full table gives up its oldest entry together with exactly its records |
| HistoryRam.RamRing.DropForRoom | app/src/app_history.c:952-964 | a full buffer gives up one record, and the entries that end with it |
| HistoryRam.RamRing.Read | app/src/app_history.c:977-985 | exactly the stored ordinals are readable, each with the bytes appended under it |
| HistoryRam.RamRing.ResetLogical | app/src/app_history.c:1017-1023 | records dropped, ordinals go on |
| HistoryRam.RamRing.SegSync | app/src/app_history.c:1008-1012 | exactly the records of one entry get the re-based time, all others keep their entry |
| HistoryRam.RamRing.SegsPartition | app/src/app_history.c:999-1006 | at most four segments partition the stored ordinals in order |
| HistoryExport.SegWindowExact | app/src/app_history.c:1586-1622 | the window of a segment is exactly the ordinals with from <= base + (abs - origin) * interval <= to |
| HistoryExport.NextInWindow | app/src/app_history.c:1626-1658 | the first wanted ordinal at or after the cursor, none skipped |
| HistoryExport.ScanSegment | app/src/app_history.c:1690-1740 | one segment's pass of the export loop takes exactly its wanted readable records up to where the frame ends |
| HistoryExport.ExportLocked | app/src/app_history.c:1667-1755 | one frame is one contiguous run of wanted readable records of one segment, bytes and base time theirs; it ends only for room, window, end or an unreadable record; nothing wanted and readable is passed over |
| HistoryExport.CountFrames | app/src/app_history.c:1806-1832 | the count is the sum over segments of their window divided by the records per frame, rounded up, saturating |
| HistoryExport.CountIsFrames | app/src/app_history.c:1792-1832 | without read errors and with the ring unchanged, that number is exactly the number of frames the cursor loop emits |
| HistoryExport.FrameTimes | app/src/app_history.c:1038-1042 | record j of a frame has time t0 + j * interval, and in a synced segment it lies in the window |
| HistoryExport.ReplayEnds | app/src/app_radio.c:1717-1755 | the replay loop stops after at most end - cursor frames |
| HistoryExport.ReplayOrdered | app/src/app_history.c:1792-1801 | under interleaved captures and evictions exported ordinals strictly increase |
| HistoryExport.ReplayExact | app/src/app_history.c:1792-1801 | every wanted record of the replay's span is exported in exactly one frame if and only if it is still stored and readable when the cursor passes it, otherwise in none; it goes out as it was appended if and only if a read then gives that |
| HistoryExport.FlashStoreValid | app/src/app_history.c:756-797 | the flash ring, with what its reads give and which of them fail, meets the export's requirements |
| HistoryExport.FlashReads | app/src/app_history.c:363-396 | which stored records of the flash ring the export can read, and which of those it reads as they were appended |
| HistoryExport.FlashSound | app/src/app_history.c:671-770 | a ring that met no flash error exports every record as it was appended |
| HistoryExport.DroppedExported | app/src/app_history.c:1690-1740 | after dropped staged bytes and a rollover the export sends such a record with other bytes than were appended, unless its last byte is 0xFF |
| HistoryExport.FlashAppendEvolves | app/src/app_history.c:671-754 | what the flash append promises is all a replay needs of an interleaved capture |
| HistoryExport.RamAppendEvolves | app/src/app_history.c:932-975 | so is what the RAM append promises |
| AlarmRuleLatch.RuleLatch.Sync | app/src/app_alarm.c:123-163 | a changed, new or cleared rule ends a latched alarm under its old target and type and resets the latch; an unchanged rule keeps everything |
| AlarmRuleLatch.RuleLatch.EvalThreshold | app/src/app_alarm.c:788-836 | for each limit: in alarm afterwards if and only if the rule is enabled, there is a reading, and it is beyond the limit, or the rule was in alarm there and the reading is neither past the deadband nor beyond the other limit; an edge goes out exactly at each change, the deactivate first |
| AlarmRuleLatch.LimitedIs | app/src/app_alarm.c:800-832 | so does the hysteresis by itself |
| AlarmLimits.AlarmIff | app/src/app_alarm.c:788-836 | over any run of readings a rule is in alarm at a limit if and only if some reading was beyond it and none since was missing, disarmed, past the deadband or beyond the other limit |
| AlarmLimits.EdgesAre | app/src/app_alarm.c:788-836 | over any run: a reading queues an activate for a limit if and only if it is beyond it and the rule was not in alarm there, a deactivate if and only if the rule was and the reading does not keep it, and nothing else |
| AlarmLimits.KeptQuiet | app/src/app_alarm.c:812-817 | while the reading stays beyond the limit or within its deadband nothing is queued |
| AlarmRuleLatch.RuleLatch.DisableState | app/src/app_alarm.c:869-881 | a disabled rule ends its alarm and forgets its confirm time |
| AlarmRuleLatch.RuleLatch.EvalStillness | app/src/app_alarm.c:883-902 | each event ends the stillness and restarts its quiet time |
| AlarmRuleLatch.RuleLatch.EvalMomentary | app/src/app_alarm.c:904-936 | motion lasts while events come within the hold time; a transition is a one-shot; lapses are noticed in the event path too |
| AlarmRuleLatch.RuleLatch.EvalTransition | app/src/app_alarm.c:938-964 | exact next latch, edges and record of what was evaluated; a sampled transition fires only after its level was seen at every evaluation for the confirm time, entered from the other level |
| AlarmRuleLatch.RuleLatch.EvalConfirmed | app/src/app_alarm.c:965-985 | exact next latch, edges and record of what was evaluated; a sampled level fires only after it was seen at every evaluation for the confirm time; its alarm ends with the level |
| AlarmRuleLatch.RuleLatch.EvalState | app/src/app_alarm.c:862-985 | dispatch over the four kinds of state rule with the exact outcome and record of evaluations and activations, keeping the confirm and alternation invariants |
| AlarmRuleLatch.RuleLatch.EvalCount | app/src/app_alarm.c:997-1050 | a rate alarm starts as soon as the limit is reached in the tumbling window, ends with the first whole window that falls short, sits out a counter that went back |
| AlarmRates.WindowOpen | app/src/app_alarm.c:997-1052 | over any run of counts a window is open, no count in it before the last was below its first or as late as its end |
| AlarmRates.CountEdges | app/src/app_alarm.c:997-1052 | over any run: the alarm starts if and only if the counter rose by the limit since the window opened, and ends if and only if the window is over and it neither did nor went back |
| AlarmRates.FirstCount | app/src/app_alarm.c:1002-1012 | the first count queues nothing |
| AlarmRuleLatch.HoldIs | app/src/app_alarm.c:198-215 | a dwell of seconds is held in milliseconds, rounded down |
| AlarmRuleLatch.RuleLatch.Sweep | app/src/app_alarm.c:1482-1519 | a stillness is raised once its quiet time has passed while the rule is armed; a lapsed hold ends, with an edge only for motion |
| AlarmRuleLatch.PushEvent | app/src/app_alarm.c:117-163 | an edge may be queued only in turn, and a deactivate only under the target and type of its activate |
| AlarmRuleLatch.ConfirmKeeps | app/src/app_alarm.c:938-985 | what an evaluation must satisfy for the confirm, spacing and alternation invariants to survive it |
| AlarmRuleLatch.LevelledCan | app/src/app_alarm.c:938-985 | every evaluation of a sampled level meets that, and an activation with a confirm time follows a level that held for it |
| AlarmRuns.DwellHolds | app/src/app_alarm.c:938-985 | over any run of samples and sweeps: with a confirm time the alarm starts only at a sample, after a sample at least that time ago from which on every sample saw the level, entered from the other level for a transition |
| AlarmRuns.StartsApart | app/src/app_alarm.c:938-964 | over any such run a transition rule starts again no sooner than its dwell after its last start |
| AlarmStates.LevelIff | app/src/app_alarm.c:965-985 | over any run of samples and sweeps: a level rule's alarm is on if and only if the level is the rule's and, with a confirm time, a sample came when it had been seen for that long |
| AlarmStates.LevelEdges | app/src/app_alarm.c:965-985 | over any run: its edges are exactly the changes of that |
| AlarmStates.TransitionEdges | app/src/app_alarm.c:938-964 | over any run: a transition rule queues an activate at exactly the samples that confirm a transition, the first after the confirm time, and nothing else |
| AlarmStates.MotionEdges | app/src/app_alarm.c:904-936 | over any run of events and sweeps: a motion is on exactly while the hold time of the last event runs; exactly which call queues its end, its start, or both |
| AlarmStates.ShotEdges | app/src/app_alarm.c:904-936 | over any run: a one-shot queues an activate at exactly the events that come when no earlier activate's hold time runs, and nothing else |
| AlarmStates.StillIff | app/src/app_alarm.c:883-902 | over any run: a stillness is on if and only if a sweep of the armed rule found the quiet time over that the last event started, or before any event the first such sweep |
| AlarmStates.StillEdges | app/src/app_alarm.c:1482-1500 | over any run: its edges are exactly the changes of that |
| AlarmWatchdogs.NoDataSlot.Rearm | app/src/app_alarm.c:1303-1312 | a changed slot type drops every latch, latched alarms ending under the old type, in order |
| AlarmWatchdogs.NoDataSlot.Step | app/src/app_alarm.c:1166-1190 | one no-data latch: exact next state and edge |
| AlarmWatchdogs.NoDataSlot.PollLatches | app/src/app_alarm.c:1221-1292 | exact next state of every latch of the slot, and exactly the edges of those that changed |
| AlarmWatchdogs.NoDataSlot.PollPart | app/src/app_alarm.c:1263-1291 | a part counts as fitted once any of its channels reported, is healthy while all do, and is held while the device is silent |
| AlarmWatchdogs.NoDataSlot.Poll | app/src/app_alarm.c:1297-1326 | re-arming, then polling; exactly whose each edge is; each latch's edges alternate, under the channel and type it named when it rose |
| AlarmWatchdogs.WatchedRight | app/src/app_alarm.c:1221-1292 | a no-data alarm is only ever of a channel that is switched on and not reporting; a silent device covers its parts |
| AlarmWatchdogs.WatchedLate | app/src/app_alarm.c:1166-1190 | the alarm rises no sooner than the no-data time after the first poll that missed the input, across a wrap of the 32-bit clock |
| AlarmWatchdogs.MismatchSlot.Poll | app/src/app_alarm.c:1197-1218 | the latch follows the mismatch; the deactivate names the type expected when it rose |
| AlarmWatchdogs.Battery.Poll | app/src/app_alarm.c:1347-1370 | low-battery latch with hysteresis, skipping implausible voltages |
| AlarmWatchdogs.LowIff | app/src/app_alarm.c:1347-1370 | over any run of readings and thresholds: low if and only if some plausible reading was below its threshold and none since above it by more than the hysteresis |
| AlarmEngine.Engine.PollRule | app/src/app_alarm.c:1383-1422 | one rule's poll: exact next latch, edges and record, the rest of the queue's sources untouched |
| AlarmEngine.Engine.Event | app/src/app_alarm.c:1557-1598 | every state rule on the channel is evaluated once, every other rule only synchronised; exact next latches, edges and records |
| AlarmEngine.Engine.Poll | app/src/app_alarm.c:1424-1539 | every rule polled and swept, every watchdog polled, with exact outcomes; the active mask is exactly what is active, the activation sequence moves exactly when something new is; no 1-Wire slot has both a mismatch and a no-data alarm |
| AlarmEngine.Engine.Mask | app/src/app_alarm.c:1462-1522 | a bit is set if and only if its source is active |
| AlarmEngine.Engine.QueueAlternates | app/src/app_alarm.c:1424-1598 | a non-edge rule's edges in the queue alternate activate and deactivate, each pair with the same target and type, from the last replacement of an edge rule on, and the latch is active if and only if the last was an activate |
| AlarmEngine.Engine.RunAlternates | app/src/app_alarm.c:1424-1598 | over any run of polls, events, edits and disables in which no edge rule is ever at an index, the edges of that rule in the queue alternate from the start, and its latch is active if and only if the last was an activate |
| AlarmEngine.Engine.SlotType | app/src/app_alarm.c:1104-1124 | the type a slot is watched for; a slot with the wrong device is not watched for missing data |
| AlarmEngine.Engine.OneAlarm | app/src/app_alarm.c:1104-1124 | so it never has both alarms |
| AlarmEngine.Engine.WatchdogsAlternate | app/src/app_alarm.c:1153-1370 | the same of every no-data, mismatch and battery latch |
| AlarmBatch.LayOut | app/src/app_alarm.c:379-425 | the page sizes are the function `Layout`, and whether pass 1 stopped at an event that fits no page |
| AlarmBatch.LayoutGreedy | app/src/app_alarm.c:379-425 | every page of the layout is the longest run of events that fits; it ends early only at the radio queue's depth or at an event that fits no page; if the first event fits there is a page |
| AlarmBatch.PagesAre | app/src/app_alarm.c:437-462 | page k of what is sent holds exactly the k-th greedy run of the batch, is numbered so under the right count, and fits the budget with its real numbers as encoded |
| AlarmBatch.SkipsOnlyUnfit | app/src/app_alarm.c:405-473 | events are skipped only behind the pages and only if the first of them fits no page alone; nothing is sent only if the first event of the batch does not fit |
| AlarmBatch.FlushSends | app/src/app_alarm.c:341-440 | exactly when a flush waits for the radio: an announced hold, or more pages laid out than free slots while the queue is not empty; what waits keeps every event and count |
| AlarmBatch.FlushAnchored | app/src/app_alarm.c:362-440 | the base time stays right if and only if not: the clock has just become known, its offset is not 0, and the laid out pages are more than the free slots |
| AlarmBatch.JoinAnchored | app/src/app_alarm.c:513-558 | an edge joins a batch with the right base time |
| AlarmBatch.EdgeTimed | app/src/app_alarm.c:513-558 | base time plus offset is the time of the edge, at most a second early, while the offset fits 16 bits; the edge is otherwise kept as it is |
| AlarmBatch.FitsReal | app/src/app_alarm.c:395-425 | a page laid out with the bound 127 for its numbers fits with its real ones, and so do its encoded bytes |
| AlarmBatch.ReportLength | app/src/app_cmd.c:3428-3491 | the size a report is laid out by is the length of its encoding: version byte and the message with its fields in order, each event a length-delimited submessage |
| AlarmBatch.Batch.SendPages | app/src/app_alarm.c:437-462 | pass 2 hands the radio exactly the pages `Reports` of the layout, and exactly their events leave |
| AlarmBatch.Batch.Reanchor | app/src/app_alarm.c:366-377 | an uptime base moves to unix time once the clock is known |
| AlarmBatch.Batch.FlushPages | app/src/app_alarm.c:379-473 | exact new state, pages, departures and result, as the function `Sending` of the old state |
| AlarmBatch.Batch.Flush | app/src/app_alarm.c:326-473 | exact new state, pages and result, as the function `Flushing`; conservation: accepted events are, in FIFO order, on exactly one page, skipped, or still in the batch, and all events are in one report's total, the pending total, or a window that sent none |
| AlarmBatch.Batch.Queue | app/src/app_alarm.c:513-558 | exact new state as the function `Queueing`; an event is taken in order or counted as dropped exactly when the batch is full; a batch waits if and only if its window is open |
| AlarmBatch.ShiftedTwice | app/src/app_alarm.c:362-440 | a run of Queue and Flush calls that puts a page on air whose base time was moved twice |
| Protobuf.VarintMonotone | app/src/app_compose.c:457-464 | varint sizes are monotone |
| Protobuf.PagingBound | app/src/app_compose.c:532-545 | page numbers laid out with the bound never take less room than the real ones |
| Wire.VarintLength | app/src/app_compose.c:457-464 | the size of a varint is the length of the bytes that the server's decoder reads back |
| Wire.FieldLength | app/src/app_compose.c:457-464 | so it is for a field that is left out when zero |
| Wire.PresentLength | app/src/app_compose.c:457-464 | for an optional field |
| Wire.LenDelimLength | app/src/app_compose.c:457-464 | and for a length-delimited field, payload included |
| Wire.PickLength | app/src/app_compose.c:457-464 | a message made of parts is as long as its parts together, in whatever order they go out |
| ComposeSpec.SplitFieldsIs | app/src/app_compose.c:478-530 | splitting a group keeps every field on this page, for a later one, or given up because it fits no empty page |
| ComposeSpec.PackRoundIs | app/src/app_compose.c:540-585 | one round of packing moves units to the page and settles the rest as `RoundOk` says |
| ComposeSpec.PackPageIs | app/src/app_compose.c:532-590 | a page that is sent is not empty and fits; if none can be sent nothing is left |
| ComposeSpec.PagesStop | app/src/app_compose.c:592-610 | the layout ends at a page if and only if no page can be packed there |
| ComposeSpec.FewPages | app/src/app_compose.c:592-610 | no report reaches the layout's page limit |
| ComposeSpec.FrameLength | app/src/app_compose.c:666-673 | the size a frame is laid out by is the length of its encoding, fields in the order of their numbers, readings and page numbers between them |
| ComposeSpec.WireOrder | app/src/app_config.proto:724-775 | every unit has exactly one place in that encoding |
| ComposeSpec.FieldsAscend | app/src/app_config.proto:724-775 | the encoding has the fields in the order of their numbers |
| ComposeSpec.CoveredStep | app/src/app_compose.c:592-682 | the frames so far hold distinct units, and every unit is on one, still to send, or too big |
| ComposeSpec.CoveredEnd | app/src/app_compose.c:592-682 | at the end every unit is on exactly one frame unless it does not fit an empty page |
| Compose.Split | app/src/app_compose.c:478-530 | the two tentative loops compute the split |
| Compose.FillPage | app/src/app_compose.c:532-590 | the packing loop computes the page |
| Compose.LayOut | app/src/app_compose.c:592-610 | the page count |
| Compose.NextPageIs | app/src/app_compose.c:592-682 | while the layout promises another page there is one, and after it the layout still comes to the same number |
| Compose.RealCountFits | app/src/app_compose.c:540-590 | a page that fits with the page count bound fits with the real count |
| Compose.StartHasAll | app/src/app_compose.c:415-429 | a report starts with everything in the snapshot still to send |
| Compose.Composer.NextPage | app/src/app_compose.c:660-682 | the next frame is exactly the next page of the layout; it is refused exactly when it is larger than the buffer given |
| Compose.Composer.OnlyPage | app/src/app_compose.c:644-682 | exact result for a report without page numbers: nothing if and only if nothing fits, refused exactly when larger than the buffer, and what is missing fits no frame |
| Compose.Composer.ComposeNext | app/src/app_compose.c:612-690 | each call gives the next frame, numbered 0..N-1, within the budget, `more` false exactly on the last, every unit on exactly one unless it fits no page; refused only by a buffer smaller than at the start; nothing only if nothing fits; a running report is not disturbed by other callers; the bytes on air, version byte included, are within buffer and budget |
| Compose.Composer.SendReport | app/src/app_compose.c:612-690 | a whole report: with a buffer that does not shrink, as many calls as the layout has pages give exactly those pages, and together they hold every unit that fits a page; every frame as encoded is within the budget |
| Compose.OnlyNothing | app/src/app_compose.c:532-610 | the unpaged frame is empty if and only if nothing left fits it |
| Paging.PagesPartition | app/src/app_cmd.c:2513-2580 | in the shared greedy layout every eligible unit that fits alone is on exactly one page, no other unit is on any, no page is empty |
| CmdPages.RealPageFits | app/src/app_cmd.c:2694-2744 | a page laid out with the bound is within the budget as encoded with its real numbers |
| CmdPages.ResponseLength | app/src/app_cmd.c:1958-1980 | the size an answer is laid out by is the length of its encoding |
| CmdPages.InfoPlaces | app/src/app_config.proto:431-491 | every unit of a device info has exactly one place in its encoding |
| CmdPages.RsLayout | app/src/app_cmd.c:2708-2744 | the loop finds page `want` and the page count of the layout that does not depend on `want` |
| CmdPages.RsPagesGood | app/src/app_cmd.c:2653-2744 | radio state: the pages partition the eligible units, and each fits as encoded |
| CmdPages.InfoLayout | app/src/app_cmd.c:2513-2580 | the same for device info, scalars by mask and alarms by range |
| CmdPages.InfoPagesGood | app/src/app_cmd.c:2411-2580 | device info: the pages partition the eligible units, and each fits as encoded |
| CmdPages.ConfigStatusLayout | app/src/app_cmd.c:2192-2223 | the item masks of all pages, for the budget clamped to the 128-byte scratch buffer |
| CmdPages.CsPagesGood | app/src/app_cmd.c:2132-2239 | config status: the pages partition the items, and each fits as encoded |
| ConfigDump.PackGood | app/src/app_cmd.c:752-799 | the packer's pages hold every eligible field once, within the budget unless a single field exceeds it |
| ConfigDump.GetConfig | app/src/app_cmd.c:731-830 | one pass yields page `want` and the page count of the layout that does not depend on `want`; over anything but NFC no field shown is for NFC alone, over a radio none that is not for it nor a P2P field outside P2P mode, and an empty alarm slot never |
| ConfigDump.GetParam | app/src/app_cmd.c:852-960 | the same for named fields; a removed sensor field is refused by its number, first one first; no field for NFC alone is shown over anything else, and no empty alarm slot |
| ConfigDump.ConfigShows | app/src/app_cmd.c:731-830 | the pages of a get_config show a field, on one page, if and only if it is not for NFC alone over another transport, not an empty alarm slot, and over a radio is for it and, outside P2P mode, not a P2P field |
| ConfigDump.ParamShows | app/src/app_cmd.c:852-960 | the pages of a get_param show a field, on one page, if and only if the request names it, it is not for NFC alone over another transport, and not an empty alarm slot |
| ConfigDump.AnsweredOnce | app/src/app_cmd.c:889-935 | a field named several times is answered exactly once |
| PageStream.Stream.AnswerDump | app/src/app_cmd.c:2063-2095 | a paged dump over a radio arms a stream behind its first page, or is refused while one runs; an answer of one page leaves the running stream alone; the page shows nothing that is not for a radio |
| PageStream.Stream.AnswerUnits | app/src/app_cmd.c:2256-2283 | the same for settings info, device info and radio state: page 0 out at once, the rest streamed; what a running stream keeps is never overwritten |
| PageStream.Stream.Next | app/src/app_cmd.c:2823-2876 | each call sends the next page of a layout run of its own; while nothing the answer shows changes, the pages go out in order, none twice, and the stream ends after the last; a page that is gone ends it; no page shows a field for NFC alone or an empty alarm slot, and none of a get_config a field that is not for a radio |
| PageStream.WholeStream | app/src/app_cmd.c:2823-2876 | over a whole stream every unit that fits an empty page is on exactly one page sent, no other unit is on any, the page numbers run from 0 under the right count |
| PageStream.WholeDump | app/src/app_cmd.c:2823-2876 | over a whole stream of a get_config or get_param dump every answered field is shown, on exactly one page if no two have the same name, and nothing else is shown |
| PageStream.WholeDumpShows | app/src/app_cmd.c:2805-2876 | over a whole stream from either radio a field of the table is shown, on one page, if and only if it is asked for, not for NFC alone, not an empty alarm slot, and for a get_config is for a radio and, outside P2P mode, not a P2P field |
| PageStream.ParamsOneName | app/src/app_cmd.c:889-935 | a get_param request never answers a name twice |
| PageStream.SameOverP2p | app/src/app_cmd.c:2805-2812 | a dump asked for over P2P has the pages it is continued with as a LoRaWAN one |
| Ccm.CbcMac | app/src/app_ccm.c:114-147 | the incremental loop equals CBC-MAC over the two zero-padded regions, sections 2.2 and 2.3 of RFC 3610 |
| Ccm.Keystream | app/src/app_ccm.c:150-163 | key stream block S_i |
| Ccm.CtrCrypt | app/src/app_ccm.c:166-180 | encryption by key stream, also in place |
| Ccm.CcmTag | app/src/app_ccm.c:183-208 | the tag of RFC 3610, section 2.2, over B_0, encoded data and message |
| Ccm.EncryptAndTag | app/src/app_ccm.c:286-303 | ciphertext and tag of the plaintext, buffers aliased or not; bad parameters change nothing |
| Ccm.AuthDecrypt | app/src/app_ccm.c:305-333 | accepted if and only if the tag is right; otherwise the output is all zero |
| Ccm.CryptTwice | app/src/app_ccm.c:166-180 | decryption undoes encryption |
| Ccm.RoundTrip | app/src/app_ccm.c:286-333 | encryption and decryption called on one buffer: with the tag that was made the answer is Ok and the old bytes are back, with any other it is BadMessage and the buffer is zero |
| Ccm.BigEndianReads | app/src/app_ccm.c:189-200 | a length or counter reads back from its field if and only if the field is wide enough: with a 13-byte nonce only below 65536 |
| Ccm.BlocksApart | app/src/app_ccm.c:150-208 | while counters fit their field, no two key stream blocks come from the same block, and none from B_0: what masks the tag masks no byte of the message |
| Ccm.Flags | app/src/app_ccm.c:189-193 | the flags by shifts are the standard's sum |
| Cmac.ShiftsLeft | app/src/app_ccm.c:215-226 | shifting bytewise shifts the 128-bit number |
| Cmac.DoubledBit | app/src/app_ccm.c:215-226 | doubling bit by bit: every bit is the next one, and bits 120, 125, 126 and 127 are flipped if the top bit fell out |
| Cmac.Double | app/src/app_ccm.c:215-226 | doubling in GF(2^128) in place |
| Cmac.AppCmac | app/src/app_ccm.c:228-270 | the algorithm of section 2.4 of RFC 4493 |
| DownlinkCodec.EncVarint | app/decoder/ttn.js:1047-1060 | the encoder loop is the varint |
| DownlinkCodec.PbReadVarint | app/decoder/ttn.js:13-29 | the reader loop, its five-byte limit and the loss of bits above 31 |
| DownlinkCodec.ReadIs | app/decoder/ttn.js:13-29 | the reader undoes the encoder on all 32-bit values, at any position |
| DownlinkCodec.EncodeDownlinkCommand | app/decoder/ttn.js:1162-1248 | the encoder with its growing array |
| DownlinkCodec.DecodeDownlinkCommand | app/decoder/ttn.js:1260-1382 | the decoder with its moving position and unknown-field rules |
| DownlinkCodec.RoundTrip | app/decoder/ttn.js:1162-1382 | decoding gives back every encodable command with the members that were set, through nested length-delimited and packed fields, zero, false and empty members left out on the wire, if and only if it is not a buzzer_play or get_radio_state with a member; of those it gives the name |
| DownlinkCodec.PageLost | app/decoder/ttn.js:1260-1382 | a concrete one |
| Buzzer.StopStops | app/src/app_buzzer.c:155-216 | after a stop, in every interleaving, a melody already begun runs at most one more command and never replays |
| Buzzer.QueuedAfterStop | app/src/app_buzzer.c:288-316 | what is queued after a stop was put there after it |
| Buzzer.TakenAfterStop | app/src/app_buzzer.c:240-286 | with the thread anywhere but between taking and starting a request, what plays next was put after the stop |
| Buzzer.StopMisses | app/src/app_buzzer.c:240-286 | the one exception plays in full |
| Buzzer.NotSuppressed | app/src/app_buzzer.c:240-286 | a stop's flag never suppresses a request taken after it |
| Buzzer.PlaysOut | app/src/app_buzzer.c:171-286 | such a request runs all of its commands, and again if it repeats |
| Buzzer.PlayedOnce | app/src/app_buzzer.c:240-316 | in every interleaving a request is begun anew no more often than it was put, repeats apart |
| AlarmRules.UnpackPacked | app/src/app_alarm_rules.c:238-268 | decoding undoes packing |
| AlarmRules.PackUnpacked | app/src/app_alarm_rules.c:238-268 | packing undoes decoding if and only if no unknown bit is set |
| AlarmRules.RuleStore.Set | app/src/app_alarm_rules.c:333-347 | a valid rule is stored in cache and bytes, an invalid one or a bad index changes nothing |
| AlarmRules.RuleStore.Clear | app/src/app_alarm_rules.c:349-360 | cache entry and bytes emptied, and whether there was a rule |
| AlarmRules.RuleStore.ClearAll | app/src/app_alarm_rules.c:362-371 | all rules emptied |
| AlarmRules.RuleStore.Reload | app/src/app_alarm_rules.c:403-444 | from any bytes: an entry is used if and only if its bytes hold a present valid rule equal to it, all other bytes are zeroed, invalid and stale rules are counted |
| AlarmRules.ReloadKeeps | app/src/app_alarm_rules.c:403-444 | reloading a consistent configuration changes nothing |
| AlarmRules.RuleStore.ApplyGroups | app/src/app_cmd.c:473-530 | the groups are applied in order up to the first that fails |
| AlarmRules.AllGroups | app/src/app_cmd.c:473-530 | a batch is staged if and only if each of its groups applies in full, and then all of them are in force together, groups not in the batch unchanged |
| AlarmRules.RuleStore.SetParam | app/src/app_cmd.c:454-587 | after an error answer the staged configuration and rule cache are exactly as before; a batch is acknowledged if and only if all groups apply and not more rules are wrong than were stale; what is then in force; a refusal for a wrong rule names the lowest rule the batch broke |
| AlarmRules.AckDropsNothing | app/src/app_cmd.c:531-575 | with no stale rule before, an acknowledged batch drops no rule it sent |
| AlarmRules.InvalidRuleAcknowledged | app/src/app_cmd.c:531-575 | in every configuration with a stale rule the batch that overwrites it with an invalid one is acknowledged, and that rule dropped |
| AlarmRules.DropsInvalid | app/src/app_cmd.c:454-587 | the same as a call of the handler |
| ConfigMigration.AppConfig.Load | app/src/app_config.c:149-296 | stored values over defaults |
| ConfigMigration.AppConfig.Commit | app/src/app_config.c:315-476 | every value is in its range afterwards; what is kept (all keys, or the carried ones of an older configuration) and in range is unchanged, every other key has its default |
| ConfigMigration.AppConfig.Export | app/src/app_config.c:478-596 | the store after any prefix of the key writes |
| ConfigMigration.AppConfig.Boot | app/src/app_config.c:2665-2716 | whatever prefix of the writes survives, booting again gives the same running configuration; every value it runs on is in range |
| ConfigMigration.BootKeeps | app/src/app_config.c:315-476 | every value the firmware runs on is in range; a stored value that stays and is in range is unchanged, whether the boot migrates or not; one that is not goes to its nearer end, 0 stays off where it means off, an enumeration falls back to its first value; every other key has its default |
| ConfigMigration.CrashSafe | app/src/app_config.c:478-596 | losing power after any prefix of the migration's writes and booting again gives the running configuration of the undisturbed migration |
| ConfigMigration.ManyCrashes | app/src/app_config.c:478-596 | so do any number of interrupted boots |
| ConfigMigration.MigratedOnce | app/src/app_config.c:478-596 | once all keys are written the migration does not run again |

## Left out

- HistoryFlash.FlashRing.Append: ordinals and sequence numbers are unbounded, the 32-bit wrap after 2^32 records or pages is not modelled.
- HistoryFlash.FlashRing.AdvancePage: a header write that fails changes nothing on flash; a partly written header is not modelled.
- HistoryFlash.FlashRing.Mount: valid only if no page of another layout is newer than the head it finds; `FlashMount.FreshSequenceNumber` says why the code needs that. Version 1 pages are not modelled.
- HistoryFlash.FlashRing.PageReadStream: flash read errors are not modelled in the ring; the export takes an arbitrary set of unreadable ordinals.
- HistoryFlash.FlashRing.Reboot: the record layout is given; building it from the configured channels, and the interval check of a failed mount in `app_history_init`, are not modelled.
- HistoryExport.ExportLocked: whether records of unsynced segments belong in the window is an input, `takeUnsynced`.
- HistoryExport.CountIsFrames: counts below 65535 and times without a 32-bit wrap; above, the count saturates as `CountFrames` says.
- AlarmRuleLatch.RuleLatch.EvalThreshold: limits are real numbers, a value that is not a number is an absent reading; float rounding is not modelled. The value an edge carries is left out.
- AlarmEngine.Engine.Poll: one clock value serves all evaluations of a poll, the source reads the clock again in each; the rate-limited sending and the buzzer follow-up after a poll are left out.
- AlarmRuns.DwellHolds: samples and sweeps of one unchanged rule; an edit or a clear starts a new run.
- AlarmStates.MotionEdges: the calls of a run come after uptime 0, where the source's deadlines have their mark for none; so for one-shots and stillness.
- AlarmEngine.Engine.Event: the callback an application may register is left out.
- AlarmBatch.Batch.Queue: the pending window total stays below 2^16.
- AlarmWatchdogs.NoDataSlot.Poll: liveness channels and parts come from the registry as lists.
- Compose.Composer.SendReport: no other caller's report comes in between; `Compose.Composer.ComposeNext` covers those.
- Compose.Composer.ComposeNext: for a report whose paged layout comes to one page, which is sent unpaged with another packing, only the budget and the fields of that frame are stated. 1-Wire readings come encoded.
- ConfigDump.GetConfig: the table of fields is an input, ordered by section and with distinct names as the generated one is.
- DownlinkCodec.RoundTrip: a message shorter than 2^32 bytes; set_param is not encoded here; varints above 32 bits are not modelled.
- DownlinkCodec.EncodeDownlinkCommand: set_param and the answer to a command of unknown name are left out.
- DownlinkCodec.DecodeDownlinkCommand: the body of a set_param is not decoded.
- Ccm.CcmTag: the block cipher is an arbitrary function; the AES hardware and its software replacement are not modelled.
- AlarmRules.RuleStore.SetParam: applying one group, with its field checks, is an arbitrary function of the staged configuration; the LoRaWAN staging flag is left out.
- ConfigMigration.AppConfig.Boot: keys, defaults, clamps and what is carried are as in the source, values are numbers; the settings backend and the removal of stale keys are left out.
- PageStream.WholeDump: that the fields of the generated table have distinct names is not stated here; for get_param `ParamsOneName` proves it, and `WholeDumpShows` has it as `Distinct`.
- HistoryFlash.FlashRing.Capture: reading the sensors into record bytes, mounting at the first capture, and the reset on a changed layout or interval are left out.
- HistoryRam.RamRing.Capture: likewise.
- CmdPages.RealPageFits: the encoded scalars and alarms of a device info and the encoded items of the settings info are inputs; radio state fields are encoded here.
- DownlinkCodec.EncVarint: field numbers are constants, on both sides those of `app/src/app_config.proto`.
- Buzzer.StopStops: one command of a pattern is one step; the sleep that a stop interrupts has no duration.
- PageStream.Stream.AnswerDump: a request that names a removed field, which is answered without pages, is left out; so are the encoding of a page and its failure.
- 1-Wire scan pages, and the pages a host asks for by number: they re-run a layout as the stream does.
- The codec of history records and the history columns of the decoder: table lookups and float rounding.
- Drivers, shells, radio stack, NFC, uplink decoding, configuration printing and ingestion: plumbing and one-branch cases.
