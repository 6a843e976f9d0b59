# Verified model of the battery manager's firmware update and protection chain

This project models, in Dafny, the two hardest parts of the battery management firmware and proves what they are for.

**Firmware update and rollback.** A host tool sends an image over a serial link into one of two flash slots. Bytes arrive by
interrupt into a ring buffer, a resynchronising parser cuts frames out of it, the bootloader engine runs a session
(START, HEADER, DATA, END), writes the slot through a driver for two banks of flash pages, and keeps a metadata record of the
active, confirmed and pending slots. A boot decision tries a pending image at most three times before it falls back to the
confirmed one, and the application confirms itself after it has started.

**Battery protection.** An acquisition thread turns sensor samples into messages, a processing thread filters each channel
with a sliding median, runs four latching limits and a current stress counter over the filtered values, and drives a state
machine (IdleDischarge, Charge, Secure).

## How it is built

| file | content |
|---|---|
| Bytes, Sequences, Arithmetic, Crc32 | machine integers, slices, little-endian packing, multiples, the reflected CRC-32 of IEEE Std 802.3-2018 (clause 3.2.9) |
| Protocol, FrameStream | frames, and the frames a byte stream contains |
| UartTransport | class `UartDma`: ring, interrupt and parser |
| FlashStorage | class `Flash` (the hardware) and the storage driver |
| Metadata, MetaStore | the record's layout and operations, and their storage in flash |
| DeviceModel | what the engine does, as functions on values; every flash operation's outcome is an argument |
| Engine | class `BootEngine`, proved to do exactly that |
| SlotInvariant, BootSystem, Safety, TrialBoots, Transfer | what holds on every run of polls, restarts, confirms and decay |
| Session, Recording, BadSlots | a session frame by frame, what END, confirm and mark-bad make of the record, and what follows for later boots |
| FailingRuns | runs on which a promise fails, built from the host's frames |
| Board | class `BootBoard`: flash, engine and receive path together, proved to follow the runs of BootSystem |
| Host | the host tool's update, run against the engine |
| MedianFilter, FaultRules, BmsFsm | class `Filter`, the rules on whole histories, the state machine and class `BmsFsmContext` |
| RawInputs, Processing, ProcessingThread | messages, histories of messages, and class `ProcessingThreadCore` |
| DropOldestQueue, Acquisition | class `Queue`, and class `AcquisitionThreadCore` |
| ProtectionChain | both threads together, from the samples to the state machine |

Where the source changes an object in place, a class does so here, and its methods are proved against functions of the old
state; the properties are then proved of those functions. A ghost field records the history (accepted bytes, filter samples,
messages, events) wherever a property speaks of it.

## Assumptions

- A metadata record write is all-or-nothing: afterwards the old or the new record is stored. The code erases and then writes
  (`apps/src/bootloader/src/bld_meta.c:136-143`), so a cut between the two loses the record; such writes are `Torn` in the
  model and outside the run theorems. Record writes may still fail, and may take effect although they report failure.
- Erasing and programming a slot may fail or be cut anywhere and leave any bytes behind. A slot decays only by the explicit
  event `Rot`.
- Restarts happen between events; a power cut inside a poll or a boot decision leaves what a failed or a completed operation
  followed by a restart leaves (`Cut` for slots, `Safety.CutBootCovered` for the boot decision's record writes). A cut after an
  attempt was counted and before the jump is represented by a decision that does jump: the bound of three trials covers it,
  and `TrialBoots.TrialsConserved` then counts a trial that was not made.
- Reading flash does not fail inside a region, as in `apps/src/bootloader/src/main.cpp:113-117`.
- The link of the end-to-end update is lossless and the flash reliable; all other theorems allow any frames and any failure.

## What does not hold without care

- "Once confirmed, always bootable" and "a confirm confirms the running image" depend on what is confirmed. When a pending
  image cannot be started and the record write that marks it bad is lost, the boot falls back to the confirmed image with the
  other one still pending, and the confirmed image's own start-up confirm then confirms that one. The confirmed image stays
  sound exactly if no unsound pending image is confirmed (`Safety.ConfirmedForever`); without a confirm nothing can break it
  (`Safety.ConfirmedImageKept`). An application can check the pending slot before it confirms.
  `FailingRuns.UnsoundImageConfirmed` is a run that fails, `Safety.ConfirmAfterBootIff` says which boots lead there.
- "Active equals confirmed" breaks exactly when such a stale pending image meets a decayed confirmed one that is marked bad
  (`BootSystem.StructureHolds`, `FailingRuns.ActiveSeparated`).
- "A valid previous image is booted by the second decision after the confirmed one decayed" holds on every run, the trial of an
  image downloaded in between excepted, exactly if marking the decayed image bad took effect (`Safety.PreviousImageBooted`,
  `Safety.PreviousImageIff`). If that write is lost nothing is started, the previous slot remains the target of downloads,
  and a HEADER erases it (`FailingRuns.PreviousImageErased`).
- "Trials plus attempts left is 3" fails exactly if an attempt is counted by a write that reports a failure and the mark-bad
  write after it is lost (`TrialBoots.TrialsConserved`, `FailingRuns.AttemptLost`). The bound of three trials always holds.
- The host's test whether an image is there already reads the record only. After a download that got as far as HEADER was
  abandoned, it skips an image whose bytes are gone (`FailingRuns.SkipCanBeWrong`). Where slot and record agree a skip is
  right up to the checksum (`Host.SkipMeansSame`).
- A parser that has lost its place drops byte by byte. Bytes of a damaged frame that happen to look like a whole frame can
  swallow the beginning of a good one; `FrameStream.FrameRecovered` says that nothing else can.
- The fault dispatch can leave Secure in mid-sequence on stale flags: exactly as `BmsFsm.LeavesSecureIff` says, and for
  instance on the run of `BmsFsm.TransientDischarge`. What is claimed of every run is the state after a locked step.
- With the charger and undervoltage alone the state depends on history: `BmsFsm.UndervoltageRemembers` gives two runs with the
  same charger and faults and different states, `BmsFsm.DispatchFollowsRule` the rule.
- A battery secured while undervoltage is active is not charged, even with the charger connected, until the undervoltage
  flag clears: `BmsFsm.UndervoltageKeepsSecure`.

## Model

| member | source | states |
|---|---|---|
| Crc32.DeviceCrc | apps/src/bootloader/src/bld_crc32.c:12-26 | the nested bit loop with its negated-bit mask computes the reflected IEEE 802.3 checksum `Crc` |
| Crc32.CrcTableInit | tools/bld_host/bld_host.c:180-189 | the table entry of every byte is that byte shifted through eight bit steps of the register |
| Crc32.HostCrcUpdate | tools/bld_host/bld_host.c:191-198 | the table-driven update leaves, on every byte string and every register, what the device's bit loop leaves |
| Crc32.HostCrc | tools/bld_host/bld_host.c:200-205 | the host's checksum of every buffer equals the device's checksum from seed 0 |
| Crc32.TableStep | tools/bld_host/bld_host.c:191-198 | one table look-up replaces eight bit steps, for every register and byte |
| Crc32.CrcChains | apps/src/bootloader/src/bld_crc32.c:12-26 | a checksum seeded with the checksum of a prefix is the checksum of the whole: crc(a ++ b, s) = crc(b, crc(a, s)) |
| Crc32.FeedInjective | apps/src/bootloader/src/bld_crc32.c:17-24 | two registers that meet after the same bytes were equal before them |
| Crc32.ResidueIffCrc | apps/src/bootloader/src/bld_engine.c:230-250 | a message followed by four bytes leaves the constant residue exactly if those bytes are its checksum, little-endian |
| Crc32.WindowDetermined | apps/src/bootloader/src/bld_crc32.c:12-26 | messages of equal length that agree outside four consecutive bytes and leave the same register are identical |
| Crc32.CheckValue | apps/src/bootloader/test/bld_crc32_test.cpp:11-14 | the checksum of "123456789" is 0xCBF43926, as the repository's own test promises: polynomial, bit order, start value and complement are the standard's |
| Protocol.SealAccepted | tools/bld_host/bld_host.c:486-552 | every body the host seals passes the engine's marker and checksum tests, and the seal is only the last five bytes |
| Protocol.AcceptedIsSealed | apps/src/bootloader/src/bld_engine.c:209-250 | a frame passes both tests if and only if it is the host's seal of its own body |
| Protocol.BurstDetected | apps/src/bootloader/src/bld_engine.c:230-250 | two accepted frames of equal length that differ only inside four consecutive bytes before EOF, also across the stored CRC, are identical |
| Protocol.CmdFrameFields | tools/bld_host/bld_host.c:486-497 | the command frame has 13 bytes, carries the command where the engine reads it, and its length field fits its length |
| Protocol.HeaderFrameFields | tools/bld_host/bld_host.c:499-513 | the header frame has 21 bytes and the engine reads back exactly size, checksum and version |
| Protocol.DataFrameFields | tools/bld_host/bld_host.c:515-552 | the engine reads back exactly payload length, sequence number, chunk length and chunk |
| FrameStream.FramesExtend | apps/src/bootloader/src/bld_transport_uart_dma.c:195-266 | more received bytes only ever extend the list of frames of a stream |
| FrameStream.DeliveredIsPrefix | apps/src/bootloader/src/bld_transport_uart_dma.c:195-266 | what was handed out is a prefix of the stream's frames, and all of them once the parser waits: the frames depend on the accepted bytes alone |
| FrameStream.FramesOfWire | apps/src/bootloader/src/bld_transport_uart_dma.c:221-262 | well-framed frames of at most the buffer size, with garbage free of 0xA5 between them, come out exactly and in order |
| FrameStream.VerdictIff | apps/src/bootloader/src/bld_transport_uart_dma.c:217-257 | at every position the parser takes exactly a well-framed frame that begins there, and drops a byte exactly if the header has arrived and no continuation of the stream can make a frame begin there |
| FrameStream.WaitsOnlyWhenShort | apps/src/bootloader/src/bld_transport_uart_dma.c:217-252 | a parser that waits has fewer bytes unread than the largest frame has, so it never waits for ever at a damaged one |
| FrameStream.FrameRecovered | apps/src/bootloader/src/bld_transport_uart_dma.c:221-262 | resynchronisation: after any bytes, start bytes and damaged frames included, a well-framed frame comes out as soon as a buffer's worth of bytes has arrived from its start on, unless something that looks like a frame reaches into it, and the parser goes on behind it |
| FrameStream.HostFramesAreWellFramed | tools/bld_host/bld_host.c:486-552 | every frame the host encodes in at most 1024 bytes is well framed |
| UartTransport.WrappedIndex | apps/src/bootloader/src/bld_transport_uart_dma.c:21-50 | an index that wrapped at 2^32 still finds its cell, and wrapped indices subtract to the distance |
| UartTransport.UartDma.Push | apps/src/bootloader/src/bld_transport_uart_dma.c:32-53 | a push takes all of the chunk or none, exactly by the free space, and never touches an unread byte |
| UartTransport.UartDma.Peek | apps/src/bootloader/src/bld_transport_uart_dma.c:55-68 | with interrupts between the count check and the read, a peek succeeds exactly inside the bytes counted and gives the accepted byte at that position |
| UartTransport.UartDma.Drop | apps/src/bootloader/src/bld_transport_uart_dma.c:88-101 | with interrupts after the count, a drop consumes the given number of bytes or all that were counted |
| UartTransport.UartDma.OnRxEvent | apps/src/bootloader/src/bld_transport_uart_dma.c:117-137 | a DMA event accepts the first min(size, 256) bytes of the DMA buffer, or nothing when they do not fit |
| UartTransport.UartDma.ReadFrame | apps/src/bootloader/src/bld_transport_uart_dma.c:70-86 | with interrupts before and between the steps of every byte, exactly the next n accepted bytes are copied out and consumed |
| UartTransport.UartDma.Inspect | apps/src/bootloader/src/bld_transport_uart_dma.c:217-257 | with interrupts between any two looks, also between a count check and the peek it allows, no peek fails after its count check and the decision is the one of the stream so far |
| UartTransport.UartDma.ParseTurn | apps/src/bootloader/src/bld_transport_uart_dma.c:208-263 | with interrupts also between the decision and what follows from it, one turn waits, drops one byte or hands out one frame, as the stream decides, and stays in step with it |
| UartTransport.UartDma.ParseFrame | apps/src/bootloader/src/bld_transport_uart_dma.c:195-266 | the frame handed out is the stream's next one; a timeout means that every turn dropped a byte or found fewer bytes unread than the buffer holds; a frame that is complete among the bytes received is handed out if the loop has more turns than there are such bytes |
| FlashStorage.Flash.ProgramDoubleword | apps/src/bootloader/src/main.cpp:136-141 | the hardware model: a doubleword is programmed only when erased, and nothing outside it changes |
| FlashStorage.Flash.ErasePages | apps/src/bootloader/src/main.cpp:119-134 | the hardware model: success leaves exactly the given pages erased, failure leaves anything in them |
| FlashStorage.Erase | apps/src/bootloader/src/bld_storage_flash.c:63-145 | fails without a change exactly outside its guards; else only the aligned pages change, all of them are erased on success, and the lock is balanced on every path |
| FlashStorage.EraseAligned | apps/src/bootloader/src/bld_storage_flash.c:96-144 | in one-bank and two-bank configurations the pages of the range are erased by one call a bank and no other page is touched |
| FlashStorage.PageAt | apps/src/bootloader/src/bld_storage_flash.c:40-61 | bank and page number of every address inside page x, with one bank or two |
| FlashStorage.LastPage | apps/src/bootloader/src/bld_storage_flash.c:96-137 | the last byte of a range lies in the page before its end, so that last - first + 1 counts the pages |
| FlashStorage.Write | apps/src/bootloader/src/bld_storage_flash.c:147-203 | fails without a change outside its guards; else only the covered doublewords change, success means they were erased and now hold the data padded with 0xFF, and the lock is balanced |
| FlashStorage.ProgramRange | apps/src/bootloader/src/bld_storage_flash.c:175-199 | the doubleword loop with its padded tail, and no doubleword programmed twice when the range was erased |
| FlashStorage.Read | apps/src/bootloader/src/bld_storage_flash.c:205-232 | succeeds exactly for a non-empty range inside the region and gives its content |
| Metadata.RecordRoundTrip | apps/src/bootloader/src/bld_meta.c:110-146 | every record that is written is read back as itself |
| Metadata.RecordCanonical | apps/src/bootloader/src/bld_meta.c:88-127 | bytes are read as a record only if they are that record's own encoding |
| MetaStore.RecordWrite | apps/src/bootloader/src/bld_meta.c:129-146 | success stores exactly the record; failure is classified by what is stored then; only erased cells of the metadata region are programmed |
| MetaStore.FailedFate | apps/src/bootloader/src/bld_meta.c:129-146 | a failed write is torn exactly if neither the old nor the new record is left |
| MetaStore.DoSetPending | apps/src/bootloader/src/bld_meta.c:208-240 | the record becomes the one `SetPending` gives, or stays when the arguments are refused |
| MetaStore.DoConfirm | apps/src/bootloader/src/bld_meta.c:242-282 | the pending slot becomes active and confirmed, the previously confirmed one valid, or nothing happens without a record or a pending slot |
| MetaStore.DoMarkBad | apps/src/bootloader/src/bld_meta.c:303-344 | the slot becomes bad and gives up pending, confirmed and active, the latter two to the other slot when that is selectable |
| MetaStore.DoDecrement | apps/src/bootloader/src/bld_meta.c:346-379 | the pending slot loses one attempt, never below 0; refused without one in state PENDING |
| SlotInvariant.SetPendingStructured | apps/src/bootloader/src/bld_meta.c:208-240 | recording a download in the chosen target keeps the slot structure |
| SlotInvariant.ConfirmStructured | apps/src/bootloader/src/bld_meta.c:242-282 | a confirm keeps the structure and confirms the pending slot |
| SlotInvariant.ConfirmKeepsPrevious | apps/src/bootloader/src/bld_meta.c:258-281 | a confirm makes the pending image active and confirmed without attempts, and the image confirmed before it VALID; version, size and checksum of both stay |
| SlotInvariant.MarkBadTakesOut | apps/src/bootloader/src/bld_meta.c:322-341 | the slot marked bad is in state BAD without attempts and neither pending, confirmed nor active any more; its numbers and the other slot's record stay |
| SlotInvariant.MarkPendingBadStructured | apps/src/bootloader/src/bld_meta.c:303-344 | marking the pending slot bad keeps the structure and the confirmed slot, and leaves nothing pending |
| SlotInvariant.MarkConfirmedBadStructured | apps/src/bootloader/src/bld_meta.c:303-344 | marking the confirmed slot bad hands over to a valid other slot, or leaves none confirmed |
| SlotInvariant.MarkBadKeepsActiveConfirmedIff | apps/src/bootloader/src/bld_meta.c:328-341 | marking a slot bad separates active from confirmed exactly if it was the confirmed one and the other slot is PENDING |
| Engine.BootEngine.constructor | apps/src/bootloader/src/bld_engine.c:521-542 | after initialisation the engine is idle without session and target, and knows the stored record |
| Engine.BootEngine.VerifySlotImage | apps/src/bootloader/src/bld_engine.c:252-296 | the 256-byte chunk loop succeeds exactly if size and checksum are nonzero, the image fits, and one pass over it gives the checksum |
| Engine.BootEngine.TryPendingSlot | apps/src/bootloader/src/bld_engine.c:557-591 | the pending slot is started, or marked bad, as the boot model decides for what the flash did |
| Engine.BootEngine.BootDecideAndJump | apps/src/bootloader/src/bld_engine.c:544-613 | the new state, messages and jump are those of the boot model for what the flash did; nothing is programmed twice |
| Engine.BootEngine.HandleEnd | apps/src/bootloader/src/bld_engine.c:346-381 | END: new state, messages and record are those of the model |
| Engine.BootEngine.HandleCmd | apps/src/bootloader/src/bld_engine.c:298-389 | every command in every state does what the model says |
| Engine.BootEngine.HandleHeader | apps/src/bootloader/src/bld_engine.c:391-442 | HEADER in every state does what the model says |
| Engine.BootEngine.StoreChunk | apps/src/bootloader/src/bld_engine.c:498-509 | within a transfer the chunk's cells are erased, so storing it programs nothing twice |
| Engine.BootEngine.HandleData | apps/src/bootloader/src/bld_engine.c:444-519 | DATA in every state, with stale buffer bytes behind a short frame, does what the model says |
| Engine.BootEngine.Poll | apps/src/bootloader/src/bld_engine.c:640-686 | a poll that found a frame does what the model says, on a tidy flash |
| BootSystem.PollCases | apps/src/bootloader/src/bld_engine.c:640-686 | a poll changes something only through one of the three handlers, on an accepted frame of its type |
| BootSystem.TryPendingStructured | apps/src/bootloader/src/bld_engine.c:557-591 | trying the pending slot keeps the slot structure whatever all-or-nothing record write fails |
| BootSystem.BootDecideIff | apps/src/bootloader/src/bld_engine.c:544-613 | a boot decision keeps the slot structure exactly unless it meets a stale pending image together with a decayed confirmed one that it marks bad; what runs afterwards is the pending image, or nothing is pending, exactly unless it starts a sound confirmed image beside a stale pending one |
| BootSystem.StepIff | apps/src/bootloader/src/bld_engine.c:298-613 | the same of every event: polls, restarts, confirms and decay |
| BootSystem.StructureHolds | apps/src/bootloader/src/bld_meta.c:208-379 | on every run with all-or-nothing writes and decaying slots, throughout: active equals confirmed, a slot is PENDING exactly if it is the pending slot, only the confirmed slot is CONFIRMED, and it is CONFIRMED or VALID; exactly if no boot decision separates active from confirmed |
| BootSystem.RunningIsPending | apps/src/bootloader/src/bld_engine.c:557-605 | throughout such a run a running application is the pending one, or nothing is pending, exactly if no boot decision starts the confirmed image beside a stale pending one |
| Safety.JumpIsVerified | apps/src/bootloader/src/bld_engine.c:544-613 | in whatever state, a boot decision jumps only to a slot whose recorded size fits it and whose content has the recorded, nonzero checksum |
| Safety.BootDecideStarts | apps/src/bootloader/src/bld_engine.c:557-609 | what a decision starts: the pending image exactly if it has attempts left, matches its record and the attempt is counted, else the confirmed one exactly if it matches its record, else nothing; it answers OK with that slot, or BOOT_ERR |
| Safety.StepSafe | apps/src/bootloader/src/bld_engine.c:298-613 | no event touches the confirmed slot's bytes; only a confirm changes which slot is confirmed, to the pending one; and the confirmed image stays sound exactly unless the application confirms a pending image that is not |
| Safety.ConfirmedForever | apps/src/bootloader/src/bld_engine.c:298-613 | on every run of frames, failed sessions, restarts and confirms with all-or-nothing writes, the confirmed image matches its record throughout, exactly if the application never confirms a pending image that does not match its own |
| Safety.ConfirmedImageKept | apps/src/bootloader/src/bld_engine.c:391-519 | until the next confirm, the confirmed slot keeps its bytes, size and checksum over the whole run, whatever all-or-nothing write fails |
| Safety.AlwaysBootable | apps/src/bootloader/src/bld_engine.c:544-613 | once an image is confirmed, after every run in which only sound images are confirmed a restart without the button starts an image that matches its record, whatever all-or-nothing write fails on the way or in that restart |
| Recording.EndOkIff | apps/src/bootloader/src/bld_engine.c:346-381 | END is answered OK exactly if as many bytes arrived as announced, the slot's content has the announced checksum, that and the version are nonzero and the record was written |
| Recording.CorruptedImageRefused | apps/src/bootloader/src/bld_engine.c:356-364 | if all bytes arrived but the slot's content has another checksum, the answer is BAD_CRC and nothing but the state has changed |
| Recording.OnlyEndRecords | apps/src/bootloader/src/bld_engine.c:346-381 | a poll other than a boot decision changes the record only by END, to one that names the arrived image as pending with three attempts, matches the slot's content and keeps active, confirmed and the other slot's record |
| Recording.RecordedImageIsReceived | apps/src/bootloader/src/bld_engine.c:391-519 | on every run without decay the image recorded by END has size, checksum and version of the last accepted HEADER, and its size and checksum are those of the chunks accepted since, which the slot holds in order |
| Recording.ConfirmThenFallBack | apps/src/bootloader/src/bld_meta.c:272-279 | after an image is confirmed over a sound one and decays, with no HEADER accepted for the other slot in between, the first decision that marks it bad hands over to the image confirmed before and the next one boots that, byte for byte, exactly unless it starts a newer trial |
| BadSlots.FailedImageNeverStarts | apps/src/bootloader/src/bld_meta.c:303-344 | a pending image without attempts left, or that does not match its record, is once marked bad never started again on any run of frames, restarts, confirms and decay, until END records a download in its slot |
| Session.StateMoves | apps/src/bootloader/src/bld_engine.c:298-519 | each state of the engine is entered only from its predecessor by its own accepted frame; IDLE only by ABORT, by a HEADER whose size does not fit and by an END answered OK; ERROR only from the states of a transfer |
| Session.OthersRefused | apps/src/bootloader/src/bld_engine.c:298-686 | every frame that does not belong to the state, such as START or BOOT in the middle of a transfer or END before its data, changes nothing and is answered BAD_STATE; a wrong checksum is answered BAD_CRC, a wrong marker, type or length BAD_FRAME |
| Session.StartBegins | apps/src/bootloader/src/bld_engine.c:102-125 | START in IDLE chooses a slot that is neither active nor, where none is active, confirmed, and slot A on a blank device; it answers with its number and touches neither slots nor record |
| Session.BootStarts | apps/src/bootloader/src/bld_engine.c:335-343 | BOOT in IDLE starts what a boot decision starts and is answered OK with the slot's number; with nothing to start BOOT_ERR is sent, twice when there is a readable record |
| Session.AbortEnds | apps/src/bootloader/src/bld_engine.c:309-313 | ABORT ends the session in every state and touches neither slots nor record |
| Session.HeaderIsEncoded | apps/src/bootloader/src/bld_engine.c:391-442 | a HEADER frame that came through the parser and is acted on is the host's encoding of the numbers read from it |
| Session.HeaderOkIff | apps/src/bootloader/src/bld_engine.c:418-441 | in WAIT_HEADER a HEADER is accepted exactly if the size is 1 to 376 KiB and the erase completes; another size ends the session |
| Session.HeaderErasesPages | apps/src/bootloader/src/bld_engine.c:429-441 | an accepted HEADER erases exactly the pages that cover the image, keeps the rest of the slot and the other one, and starts the count at 0 |
| Session.OnlyNextChunkTaken | apps/src/bootloader/src/bld_engine.c:444-519 | while data is received, only ABORT and the host's own encoding of the expected sequence number with a chunk have an effect, and then exactly that chunk is taken |
| Session.ChunkOkIff | apps/src/bootloader/src/bld_engine.c:490-516 | a chunk is accepted exactly if it is not empty, follows whole doublewords, fits image and slot and the write completes; one beyond the image is a bad frame, everything else a flash error |
| Session.ChunkWritten | apps/src/bootloader/src/bld_engine.c:505-516 | an accepted chunk stands at the count, padded with 0xFF to a doubleword; every other byte of both slots stays; WAIT_END begins exactly when the image is complete |
| Safety.BlankIsSafe | apps/src/bootloader/src/bld_meta.c:29-47 | a device without a readable record is a state from which these runs may start |
| Safety.PreviousImageBooted | apps/src/bootloader/src/bld_engine.c:557-609 | the first boot decision, by restart or BOOT frame, that finds the confirmed image decayed and marks it bad hands over to a VALID previous image that still verifies; after any run of frames, sessions and restarts without decay and confirms the next decision starts a sound image, and it is the previous one, byte for byte, exactly unless it starts the trial of a newer one |
| Safety.PreviousImageIff | apps/src/bootloader/src/bld_engine.c:593-609 | this holds for every such run exactly if the write that marks the decayed image bad took effect |
| FailingRuns.PreviousImageErased | apps/src/bootloader/src/bld_engine.c:429-441 | with that write lost, START, HEADER and ABORT then erase the previous image, and the next decision starts nothing |
| Safety.CutBootCovered | apps/src/bootloader/src/bld_engine.c:544-613 | wherever a boot decision is cut, the stored record is the one it found or one that some uncut decision leaves |
| Safety.ConfirmAfterBootIff | apps/src/application/bootloader_confirm/bld_confirm.c:59-89 | after a boot, a confirm confirms the running image exactly unless the mark-bad write of a pending image that could not be started was lost; an unsound image gets confirmed exactly if that pending image was unsound |
| FailingRuns.UnsoundImageConfirmed | apps/src/bootloader/src/bld_engine.c:583-590 | a run from a state in which both images are sound: START, HEADER, ABORT, a restart whose mark-bad write is lost, and the running image's start-up confirm, which confirms the erased image |
| FailingRuns.ActiveSeparated | apps/src/bootloader/src/bld_engine.c:593-609 | the same run with decay of the confirmed slot before the restart leaves active and confirmed different |
| FailingRuns.AttemptLost | apps/src/bootloader/src/bld_engine.c:574-585 | a restart that counts an attempt, reports a failure and loses the mark-bad write leaves two attempts without a trial |
| FailingRuns.AbandonedRun | apps/src/bootloader/src/bld_engine.c:309-441 | START, HEADER and ABORT, as the frames the host encodes, erase the target's first pages and change nothing else |
| Safety.BootKeepsActiveConfirmedIff | apps/src/bootloader/src/bld_engine.c:557-609 | a boot decision separates active from confirmed exactly if a stale pending image meets a decayed confirmed one that is marked bad |
| TrialBoots.AtMostThreeTrials | apps/src/bootloader/src/bld_engine.c:557-581 | whatever all-or-nothing write fails, trial boots of a pending image plus its attempts left never exceed 3 |
| TrialBoots.TrialsConserved | apps/src/bootloader/src/bld_meta.c:346-379 | throughout a run trial boots plus attempts left is exactly 3 while an image is pending, exactly if no boot decision loses an attempt: counts it although the write reports a failure, and loses the mark-bad write that should follow |
| Transfer.ExactlyOnce | apps/src/bootloader/src/bld_engine.c:391-519 | on every run with losses, repeats, reordering, corruption, failures and cuts: accepted chunks are numbered 0, 1, 2, ... once each, the target slot starts with their concatenation and is erased beyond, RECV_DATA means less than the image size and WAIT_END equality |
| Transfer.ChunkCellsErased | apps/src/bootloader/src/bld_engine.c:498-509 | the HEADER erase covers every doubleword a later DATA frame programs, padding included |
| Transfer.OutOfSequenceChangesNothing | apps/src/bootloader/src/bld_engine.c:485-488 | a repeated or early DATA frame is answered with the expected number and changes nothing |
| Transfer.UnalignedChunkRefused | apps/src/bootloader/src/bld_storage_flash.c:185-188 | a chunk after one that did not fill whole doublewords is refused before anything is programmed |
| Transfer.ErrorLeftOnlyByAbort | apps/src/bootloader/src/bld_engine.c:309-389 | a poll leaves the ERROR state if and only if it delivers a valid ABORT frame |
| Transfer.SlotKept | apps/src/bootloader/src/bld_engine.c:391-519 | a slot keeps its content over every run without decay in which no HEADER for it is accepted |
| Transfer.ErasedSince | apps/src/bootloader/src/bld_engine.c:429-441 | from a completed HEADER erase on the slot begins with an erased byte until a chunk is written to it |
| Board.PowerUp | apps/src/bootloader/src/main.cpp:247-256 | power-up is the model's restart on the flash as it is |
| Board.BootBoard.Poll | apps/src/bootloader/src/bld_engine.c:615-687 | one turn of receive path, parser and engine is one model event on the frame handed out, or none; the lock stays balanced and nothing is ever programmed twice |
| Board.BootBoard.RestartBoard | apps/src/bootloader/src/main.cpp:247-263 | a restart is one model event; nothing but the flash survives |
| Board.BootBoard.ConfirmRunningImage | apps/src/application/bootloader_confirm/bld_confirm.c:59-89 | the application's confirm is one model event |
| Board.BoardStaysSafe | apps/src/bootloader/src/bld_engine.c:298-613 | the whole-run safety, under the same condition on confirms, holds of the board's actual state |
| Host.DoWrite | tools/bld_host/bld_host.c:935-1060 | skips exactly when the target's record names the image, and then, if the slot agrees with its record, holds as many bytes with the image's checksum under its version; finishes exactly when image, checksum, version and chunk size are transferable; then the target slot holds the image byte for byte, the other slot is untouched, the record is pending with one trial used, and BOOT jumped to the target |
| Host.SkipMeansSame | tools/bld_host/bld_host.c:987-1012 | where the target agrees with its record, a skipped image has the length, checksum and version of what the slot holds, and the slot is neither empty nor bad |
| Host.RepeatedUpdateSkipped | tools/bld_host/bld_host.c:987-1012 | an update that was installed is skipped when it is repeated |
| Host.Install | tools/bld_host/bld_host.c:1014-1058 | START to BOOT on the host gets OK at every step exactly for a transferable image |
| Host.SendHeader | tools/bld_host/bld_host.c:1020-1024 | HEADER is accepted exactly for images of 1 byte to 376 KiB |
| Host.SendChunks | tools/bld_host/bld_host.c:1026-1044 | the chunk loop gets through exactly if the chunks fill whole doublewords or one is enough |
| Host.SendEnd | tools/bld_host/bld_host.c:1046-1050 | END is accepted exactly if checksum and version are nonzero, and leaves the image pending with three attempts |
| Host.SendBoot | tools/bld_host/bld_host.c:1052-1056 | BOOT is accepted and jumps to the slot just installed |
| FailingRuns.SkipCanBeWrong | tools/bld_host/bld_host.c:988-1012 | after START, HEADER and ABORT of any download the target's record still names the old image, so the tool skips that image although its bytes are gone |
| FailingRuns.SkipIsRight | tools/bld_host/bld_host.c:988-1012 | an image that was installed is still in its slot, and skipping it is right, as long as no HEADER for that slot was accepted since |
| FailingRuns.SkipIsWrong | tools/bld_host/bld_host.c:988-1012 | it is not there any more once a HEADER was accepted, if the erase completed and no chunk was written to the slot since |
| MedianFilter.Filter.Apply | apps/src/application/filters/median_filter.hpp:21-39 | the output is the upper median of the last min(n, window) samples, whatever the circular buffer's rotation |
| MedianFilter.MedianRank | apps/src/application/filters/median_filter.hpp:32-38 | the upper median is the element of rank count/2: at most count/2 samples lie below it and more than count/2 at or below it |
| MedianFilter.MedianAboveIff | apps/src/application/filters/median_filter.hpp:32-38 | the median exceeds a limit exactly if at most half of the window (rounded down) does not |
| MedianFilter.MedianBelowIff | apps/src/application/filters/median_filter.hpp:32-38 | the median lies below a limit exactly if more than half of the window (rounded down) does |
| MedianFilter.MedianMember | apps/src/application/filters/median_filter.hpp:32-38 | the median is one of the samples of the window |
| FaultRules.LatchedSnoc | apps/src/application/threads/processing_thread.cpp:107-145 | "the last sample outside the band was on the trip side" is what a latch with trip and recovery limits keeps, sample by sample |
| FaultRules.NeverBoth | apps/src/application/threads/processing_thread.cpp:107-145 | opposite faults with those limits are never latched together |
| FaultRules.FaultLimits | apps/src/application/threads/processing_thread.cpp:107-145 | one filtered value more: overvoltage comes on above 40000 mV and stays down to 35000, undervoltage below 29000 and up to 30000, overtemperature above 60000 millidegrees and down to 55000, undertemperature below -20000 and up to -15000 |
| FaultRules.FourSamplesDecide | apps/src/application/threads/processing_thread.cpp:107-145 | four successive samples beyond a limit latch it and four beyond its recovery limit clear it, whatever came before and however full the window is |
| FaultRules.WithinLimit | apps/src/application/threads/processing_thread.cpp:107-145 | samples that never went beyond a limit never latched it |
| FaultRules.ThreeHighOutliersTolerated | apps/src/application/threads/processing_thread.cpp:107-135 | with a full window, up to three samples beyond an upper limit do not newly latch it |
| FaultRules.ThreeLowOutliersTolerated | apps/src/application/threads/processing_thread.cpp:117-145 | with a full window, up to three samples beyond a lower limit do not newly latch it |
| FaultRules.PhaseHistory | apps/src/application/threads/processing_thread.cpp:147-186 | every history splits into stretches, each ending with the very sample on which the increments sum to 1,000,000 or the 100th consecutive sample below 90,000 mA comes, and overcurrent is on exactly in every second one |
| FaultRules.BoundariesUnique | apps/src/application/threads/processing_thread.cpp:147-186 | there is only one such split |
| FaultRules.OverloadTrips | apps/src/application/threads/processing_thread.cpp:147-216 | from any history and with any mix of levels, 500 samples in a row of at least 150,000 mA, 1000 of 120,000, 2000 of 100,000 or one of 170,000 leave overcurrent on |
| FaultRules.TripTimes | apps/src/application/threads/processing_thread.cpp:196-216 | a steady overload right after start or recovery trips with exactly the 500th, 1000th or 2000th sample by level, and at once at cut-off |
| FaultRules.QuietNeverTrips | apps/src/application/threads/processing_thread.cpp:196-216 | currents that stay below 100 A leave overcurrent off and the stress at 0 |
| FaultRules.RecoveryTimes | apps/src/application/threads/processing_thread.cpp:163-183 | from a sample of at least 90,000 mA on, or from the one it came on with, overcurrent clears with exactly the 100th successive sample below 90,000 mA |
| BmsFsm.DispatchFollowsRule | apps/src/application/domain/bms_fsm.cpp:238-270 | the four sequential events, with their transient states, leave flags that mirror the fault status and the mode of the closed rule |
| BmsFsm.LockedStepSettles | apps/src/application/threads/processing_thread.cpp:62-105 | each locked step ends settled, in the mode of the rule for new faults or for a charger change |
| BmsFsm.AlwaysSettled | apps/src/application/domain/bms_fsm.cpp:87-212 | after every locked step of every run: IdleDischarge only without charger and fault, Charge only with charger and no fault but undervoltage, and with no fault exactly those two |
| BmsFsm.LeavesSecureIff | apps/src/application/domain/bms_fsm.cpp:186-270 | a dispatch that begins and ends in Secure is in another state in between exactly if the flags not yet updated are stale in the stated way |
| BmsFsm.TransientDischarge | apps/src/application/domain/bms_fsm.cpp:186-270 | a run on which it happens: after a sensor fault, a status with overcurrent only enters and leaves IdleDischarge |
| BmsFsm.UndervoltageRemembers | apps/src/application/domain/bms_fsm.cpp:97-100 | two runs with the same charger and the same faults, undervoltage alone, that end in Charge and in Secure |
| BmsFsm.UndervoltageKeepsSecure | apps/src/application/domain/bms_fsm.cpp:186-212 | a battery secured while undervoltage is active stays secured until undervoltage clears, whatever the charger does |
| BmsFsm.BmsFsmContext.HandleEvent | apps/src/application/domain/bms_fsm.cpp:18-212 | each event in each state sets its flag and changes the state as the state's handler does |
| BmsFsm.BmsFsmContext.UpdateFaultStatus | apps/src/application/domain/bms_fsm.cpp:238-270 | the object's new state is the dispatch of the old one |
| Processing.AlwaysProtected | apps/src/application/threads/processing_thread.cpp:62-105 | on every run of messages and charger changes the machine works with the fault status of the whole history and is settled for it |
| Processing.OvervoltageSecures | apps/src/application/threads/processing_thread.cpp:72-125 | four successive valid voltage samples above 40000 mV put the battery in Secure, regardless of history |
| Processing.OvercurrentSecures | apps/src/application/threads/processing_thread.cpp:147-262 | 506, 1006 or 2006 successive valid raw current samples of at least 150, 120 or 100 A, or seven of at least 170 A, put the battery in Secure, regardless of history and mix of levels |
| Processing.SensorFaultIff | apps/src/application/threads/processing_thread.cpp:72-104 | the sensor fault is active exactly while the last reading of some channel is invalid, and then the battery is in Secure |
| Processing.OtherLimitsSecure | apps/src/application/threads/processing_thread.cpp:72-145 | four successive valid temperatures above 60 or below -20 degrees put the battery in Secure; four voltages below 29000 mV do so without the charger, and with it leave no discharge |
| Processing.NoFalseAlarm | apps/src/application/threads/processing_thread.cpp:72-216 | with working sensors and no valid sample ever beyond a limit or at 100 A the battery charges or discharges as the charger says |
| Processing.BackToOperation | apps/src/application/threads/processing_thread.cpp:72-216 | whatever came before, four good voltages and temperatures and 106 currents below 90 A clear every fault once the sensors work, and Secure is left |
| Processing.NoOppositeFaults | apps/src/application/threads/processing_thread.cpp:107-145 | over- and undervoltage, and over- and undertemperature, are never active together in any reachable state |
| ProcessingThread.ProcessingThreadCore.DetectCurrentFault | apps/src/application/threads/processing_thread.cpp:147-186 | stress counter, timer and flag carry out the overcurrent rule on all filtered currents; neither counter leaves 32 bits for any current |
| ProcessingThread.ProcessingThreadCore.EvaluateFaults | apps/src/application/threads/processing_thread.cpp:72-105 | the stored fault status and the machine are those of the whole history including this message |
| ProcessingThread.ProcessingThreadCore.ProcessSample | apps/src/application/threads/processing_thread.cpp:218-262 | after a message, with charger changes between its two locked sections, every field of the object is the closed form of the whole history |
| ProcessingThread.ProcessingThreadCore.SetChargerConnected | apps/src/application/threads/processing_thread.cpp:62-70 | after a charger change every field the mutex guards is the closed form of the whole history |
| ProcessingThread.Drain | apps/src/application/threads/processing_thread.cpp:264-276 | with messages posted and the charger switched between the locked sections, every popped message is processed once and in order, until the queue is empty |
| DropOldestQueue.Queue.Push | apps/src/application/threads/processing_thread.cpp:12-30 | the circular array does what the trace says: append, dropping the oldest of 16 |
| DropOldestQueue.Queue.Pop | apps/src/application/threads/processing_thread.cpp:32-44 | the circular array gives the oldest queued item, or nothing and no change when empty |
| DropOldestQueue.PushKeepsLast | apps/src/application/threads/acquisition_thread.cpp:55-73 | a push leaves the last 16 of the queued items and the new one, which is always queued |
| DropOldestQueue.PopTakesFirst | apps/src/application/threads/acquisition_thread.cpp:75-88 | a pop takes the oldest queued item |
| DropOldestQueue.Conservation | apps/src/application/threads/acquisition_thread.cpp:55-88 | on every run pushed = popped + dropped + queued, and the pops are an in-order subsequence of the pushes |
| Acquisition.OneNewChannel | apps/src/application/threads/acquisition_thread.cpp:90-131 | message i marks exactly the channel of sample i as new and carries its value, time and validity, a negative voltage as an invalid zero |
| Acquisition.PublishedAt | apps/src/application/threads/acquisition_thread.cpp:90-131 | message i holds the latest sample of every channel after the first i + 1 samples |
| Acquisition.ReadingsArrive | apps/src/application/threads/acquisition_thread.cpp:90-150 | whatever messages are dropped between the threads, the detectors see of each channel exactly the valid readings that arrived, once and in order, and their last reading is the last sample that arrived |
| ProtectionChain.StartThreads | apps/src/application/threads/acquisition_thread.cpp:13-23 | the two threads start sound, linked by an empty queue |
| ProtectionChain.RunThreads | apps/src/application/threads/acquisition_thread.cpp:133-152 | every schedule of the two threads keeps both objects sound and the processing thread's history equal to the messages popped from the queue between them |
| ProtectionChain.DetectorsSeeArrived | apps/src/application/threads/processing_thread.cpp:218-276 | the detectors of the running processing thread have seen exactly the valid readings whose messages arrived, and the last reading is that of the last such sample |
| ProtectionChain.HighVoltageSecures | apps/src/application/threads/processing_thread.cpp:72-125 | if the last four valid voltage readings that arrived exceed 40000 mV, the state machine object is in Secure |
| ProtectionChain.OverloadSecures | apps/src/application/threads/processing_thread.cpp:147-262 | the same for current readings that arrived and last long enough at a level |
| ProtectionChain.FaultySensorSecures | apps/src/application/threads/acquisition_thread.cpp:90-117 | the core's sensor fault is active exactly while the last sample of some channel that arrived is invalid or a negative voltage, and then the state machine object is in Secure |
| ProtectionChain.OtherReadingsSecure | apps/src/application/threads/processing_thread.cpp:107-145 | the same for temperatures beyond either limit and voltages below the lower one |
| ProtectionChain.GoodReadingsOperate | apps/src/application/threads/processing_thread.cpp:72-216 | without a faulty sensor the state machine object charges or discharges as the charger says, if no reading ever went beyond a limit or if the last ones clear every fault |
| Acquisition.AcquisitionThreadCore.ApplySensorSample | apps/src/application/threads/acquisition_thread.cpp:90-117 | the stored inputs become the message for the samples so far; a negative voltage becomes an invalid zero |
| Acquisition.AcquisitionThreadCore.PublishRawInputs | apps/src/application/threads/acquisition_thread.cpp:119-131 | exactly that message is posted, and no channel stays new |
| Acquisition.AcquisitionThreadCore.Drain | apps/src/application/threads/acquisition_thread.cpp:142-150 | with samples arriving and messages taken in between, every popped sample gives exactly one message, and the loop ends with an empty queue |

## Left out

- `bld_jump_to_image` internals, clocks, GPIO, registers and start-up code: the jump is entering `Running(slot)`.
- Power cuts in the middle of a metadata record write: modelled as `Torn`, excluded from the run theorems, because the code does not protect against them.
- The clock: the parser's timeout is a number of loop turns, and the host's timeouts are not modelled.
- `bld_uart_dma_on_error` and restarting DMA reception: they do not touch the ring.
- Host serial I/O, file reading, command line, and the bytes of STATUS and META frames: the engine's answers are values. META answers carry the slots' reserved bytes, which the device sends as zero.
- Transmission errors towards the host: sending always succeeds, and the engine ignores its result except as a return value.
- Host images of 4 GiB and more, whose size the tool truncates to 32 bits.
- Host chunk sizes above 1009: their frames exceed the device's 1024-byte buffer, the parser discards them and the tool times out.
- FlashStorage.Write: the alignment test is made once before the loop instead of before every doubleword; an address keeps its alignment from one doubleword to the next.
- UartTransport.UartDma.ReadFrame: the length check of the ring read is a precondition, which the parser's own count check establishes; the parser's fallback branches for a failing peek or read are therefore never taken and not written out.
- UartTransport.UartDma.Interrupts: an interrupt is atomic between two of the consumer's steps; copying a byte and advancing the index are separate steps, single memory accesses are not.
- MedianFilter.Filter.Apply: the standard library's sort is modelled by the function `Sort`; copying the cells in use is a slice. Samples are unbounded integers, since the filter only compares them.
- ProcessingThread.ProcessingThreadCore.EvaluateFaults: its three blocks are methods of their own, and each channel's flags form one value.
- ProtectionChain.RunThreads: one turn of a thread is one sample or one message; a switch of threads inside a turn is covered only for the charger and, in the two threads' own loops, for arrivals and posts.
- BmsFsm.BmsFsmContext.HandleEvent: the twelve handlers are one method a state, with the event as a value; entry, exit and relay actions are log lines, and previous state and started flag are used by nothing else.
- Acquisition: timers, sensors and time stamps come from outside; arrivals between two locked sections are the argument of `Drain`.
- `bld_meta_write_boot_control`, `EmaFilter`, `MedianFilter::Reset`, the sensor simulation and button debouncing: only easy members.
- NULL and missing-callback checks: preconditions here.
