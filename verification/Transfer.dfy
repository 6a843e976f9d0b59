/** One image transfer: whatever frames arrive, the slot holds exactly the accepted chunks, each once and in order. */
module Transfer {
  import opened Bytes
  import opened Protocol
  import opened Metadata
  import opened DeviceModel
  import opened BootSystem
  import F = FlashStorage

  /** An accepted DATA frame: its sequence number and its payload. */
  datatype Chunk = Chunk(seqNo: u32, data: seq<byte>)

  function Payload(log: seq<Chunk>): seq<byte> {
    if log == [] then [] else Payload(log[..|log| - 1]) + log[|log| - 1].data
  }

  /** The slot starts with the accepted chunks, numbered from 0, and is erased from the next doubleword to the end of
      the pages the header erased. */
  ghost predicate SlotHolds(s: seq<byte>, received: nat, size: nat, log: seq<Chunk>) {
    && received == |Payload(log)| && received <= |s| && s[..received] == Payload(log)
    && (forall i :: 0 <= i < |log| ==> log[i].seqNo == i)
    && F.AllErased(s, F.AlignUp(received, F.DOUBLEWORD), F.AlignUp(size, PAGE_SIZE))
  }

  ghost predicate Receiving(d: Device, log: seq<Chunk>) {
    && d.target != NoSlot && 0 < d.session.imageSize <= SLOT_SIZE
    && d.session.expectedSeq == |log| && |log| <= d.session.receivedSize <= d.session.imageSize
    && (d.state == RecvData <==> d.session.receivedSize < d.session.imageSize)
    && SlotHolds(d.Slot(d.target), d.session.receivedSize, d.session.imageSize, log)
  }

  /** While data is received and until END, the target slot starts with the accepted chunks and is erased beyond. */
  ghost predicate TransferOk(d: Device, log: seq<Chunk>) {
    d.WellFormed() && (d.state in {RecvData, WaitEnd} ==> Receiving(d, log))
  }

  /** The chunks accepted since the last header, after one more poll. */
  function Accept(d: Device, buf: seq<byte>, o: Outcome, log: seq<Chunk>): seq<Chunk>
    requires |buf| == MAX_FRAME
  {
    var chunkLen := FromLe16(buf[8..10]);
    if d.state == WaitHeader && o.device.state == RecvData then []
    else if d.state == RecvData && o.device.session != d.session && o.device.state in {RecvData, WaitEnd}
            && 10 + chunkLen <= |buf|
    then log + [Chunk(FromLeU32(buf[4..8]), buf[10..10 + chunkLen])]
    else log
  }

  function Log(s: System, e: Event, log: seq<Chunk>): seq<Chunk>
    requires Possible(e)
  {
    if e.Poll? && s.mode == Bootloader then Accept(s.dev, e.buf, PollFrame(s.dev, e.buf, e.len, e.fates), log) else log
  }

  function LogOf(s: System, es: seq<Event>, log: seq<Chunk>): seq<Chunk>
    requires forall e :: e in es ==> Possible(e)
  {
    if es == [] then log
    else Log(Run(s, es[..|es| - 1]), es[|es| - 1], LogOf(s, es[..|es| - 1], log))
  }

  // ---- the two handlers that touch the slot ----

  lemma HeaderStarts(d: Device, size: u32, crc: bv32, version: bv32, fates: Fates)
    requires d.WellFormed() && d.state == WaitHeader
    ensures var o := HandleHeader(d, size, crc, version, fates);
            && o.device.WellFormed() && o.device.state != WaitEnd
            && (o.device.state == RecvData ==> Receiving(o.device, []))
  {
    if d.target != NoSlot && 0 < size <= SLOT_SIZE && EraseSlot(d.Slot(d.target), size, fates.slot).ok {
      var n := F.AlignUp(size, PAGE_SIZE);
      assert EraseSlot(d.Slot(d.target), size, fates.slot).content[..n] == Blank(n);
    }
  }

  lemma PayloadAppend(log: seq<Chunk>, c: Chunk)
    ensures Payload(log + [c]) == Payload(log) + c.data
  {
    assert (log + [c])[..|log|] == log;
  }

  lemma SpliceEffect(s: seq<byte>, at: nat, data: seq<byte>, end: nat)
    requires at % F.DOUBLEWORD == 0 && at + |F.Padded(data)| <= |s|
    requires F.AllErased(s, at, end)
    ensures var t := Splice(s, at, F.Padded(data));
            && t[..at + |data|] == s[..at] + data
            && F.AlignUp(at + |data|, F.DOUBLEWORD) == at + |F.Padded(data)|
            && F.AllErased(t, at + |F.Padded(data)|, end)
  {
    var t := Splice(s, at, F.Padded(data));
    assert t == s[..at] + F.Padded(data) + s[at + |F.Padded(data)|..];
    assert F.Padded(data)[..|data|] == data;
  }

  /** A chunk that continues an aligned transfer fits into the pages that were erased for it. */
  lemma ChunkFits(at: nat, len: nat, size: nat)
    requires at % F.DOUBLEWORD == 0 && at + len <= size <= SLOT_SIZE
    ensures F.AlignUp(at, F.DOUBLEWORD) == at
    ensures at + F.AlignUp(len, F.DOUBLEWORD) <= F.AlignUp(size, PAGE_SIZE) <= SLOT_SIZE
  {
    PagesOfDoublewords(size);
    AlignedAlready(at);
    RoomAligned(at, F.AlignUp(size, PAGE_SIZE));
    hide F.AlignUp;
    F.PaddingFits(len, F.AlignUp(size, PAGE_SIZE) - at);
  }

  lemma AlignedAlready(at: nat)
    requires at % F.DOUBLEWORD == 0
    ensures F.AlignUp(at, F.DOUBLEWORD) == at
  {}

  lemma RoomAligned(at: nat, end: nat)
    requires at % F.DOUBLEWORD == 0 && end % F.DOUBLEWORD == 0
    ensures (end - at) % F.DOUBLEWORD == 0
  {}

  lemma PagesOfDoublewords(size: nat)
    requires size <= SLOT_SIZE
    ensures size <= F.AlignUp(size, PAGE_SIZE) <= SLOT_SIZE && F.AlignUp(size, PAGE_SIZE) % F.DOUBLEWORD == 0
  {
    var k := (size + PAGE_SIZE - 1) / PAGE_SIZE;
    assert F.AlignUp(size, PAGE_SIZE) == k * PAGE_SIZE == F.DOUBLEWORD * (k * 256);
  }

  /** A chunk is programmed only over erased cells, inside the slot. */
  lemma ChunkCellsErased(d: Device, log: seq<Chunk>, chunk: seq<byte>)
    requires TransferOk(d, log) && d.state == RecvData
    requires d.session.receivedSize + |chunk| <= d.session.imageSize
    requires d.session.receivedSize % F.DOUBLEWORD == 0
    ensures var at, n := d.session.receivedSize, F.AlignUp(|chunk|, F.DOUBLEWORD);
            at + n <= SLOT_SIZE && F.AllErased(d.Slot(d.target), at, at + n)
  {
    ChunkFits(d.session.receivedSize, |chunk|, d.session.imageSize);
    hide F.AlignUp, Payload;
  }

  lemma SlotHoldsMore(s: seq<byte>, received: nat, size: nat, log: seq<Chunk>, chunk: seq<byte>)
    requires |log| < U32_MODULUS
    requires received % F.DOUBLEWORD == 0 && received + |chunk| <= size <= SLOT_SIZE == |s|
    requires SlotHolds(s, received, size, log)
    requires received + |F.Padded(chunk)| <= |s|
    ensures SlotHolds(Splice(s, received, F.Padded(chunk)), received + |chunk|, size, log + [Chunk(|log|, chunk)])
  {
    ChunkFits(received, |chunk|, size);
    hide F.AlignUp, F.Padded, Splice, F.AllErased, Payload;
    SpliceEffect(s, received, chunk, F.AlignUp(size, PAGE_SIZE));
    PayloadAppend(log, Chunk(|log|, chunk));
  }

  /** The device after a chunk was accepted. */
  function Extended(d: Device, chunk: seq<byte>): Device
    requires d.WellFormed() && d.target != NoSlot && d.session.receivedSize + |chunk| <= d.session.imageSize
    requires d.session.receivedSize + |F.Padded(chunk)| <= SLOT_SIZE
  {
    var s := d.session;
    var received := s.receivedSize + |chunk|;
    d.WithSlot(d.target, Splice(d.Slot(d.target), s.receivedSize, F.Padded(chunk)))
     .(session := s.(receivedSize := received, expectedSeq := (s.expectedSeq + 1) % U32_MODULUS),
       state := if received >= s.imageSize then WaitEnd else RecvData)
  }

  lemma ChunkAccepted(d: Device, chunk: seq<byte>, fates: Fates)
    requires d.WellFormed()
    ensures var o, at := AcceptChunk(d, chunk, fates), d.session.receivedSize;
            && o.device.WellFormed()
            && (o.device.state != Error ==>
                  && d.target != NoSlot && chunk != [] && at % F.DOUBLEWORD == 0
                  && at + |chunk| <= d.session.imageSize && at + |F.Padded(chunk)| <= SLOT_SIZE
                  && o.device == Extended(d, chunk))
  {
    hide F.AlignUp, Splice;
  }

  lemma ReceivingMore(d: Device, chunk: seq<byte>, log: seq<Chunk>)
    requires d.WellFormed() && d.state == RecvData && Receiving(d, log)
    requires chunk != [] && d.session.receivedSize % F.DOUBLEWORD == 0
    requires d.session.receivedSize + |chunk| <= d.session.imageSize
    requires d.session.receivedSize + |F.Padded(chunk)| <= SLOT_SIZE
    ensures Receiving(Extended(d, chunk), log + [Chunk(d.session.expectedSeq, chunk)])
    ensures Extended(d, chunk).session != d.session
  {
    hide F.Padded, F.AlignUp, Splice, SlotHolds, Extended;
    SlotHoldsMore(d.Slot(d.target), d.session.receivedSize, d.session.imageSize, log, chunk);
    ExtendedSlot(d, chunk);
  }

  lemma ExtendedSlot(d: Device, chunk: seq<byte>)
    requires d.WellFormed() && d.target != NoSlot && d.session.receivedSize + |chunk| <= d.session.imageSize
    requires d.session.receivedSize + |F.Padded(chunk)| <= SLOT_SIZE
    ensures var e, s := Extended(d, chunk), d.session;
            && e.target == d.target && e.Slot(d.target) == Splice(d.Slot(d.target), s.receivedSize, F.Padded(chunk))
            && e.session.receivedSize == s.receivedSize + |chunk| && e.session.imageSize == s.imageSize
            && e.session.expectedSeq == (s.expectedSeq + 1) % U32_MODULUS
            && e.state == if s.receivedSize + |chunk| >= s.imageSize then WaitEnd else RecvData
  {
    hide F.Padded, Splice;
  }

  lemma DataKeeps(d: Device, buf: seq<byte>, len: nat, fates: Fates, log: seq<Chunk>)
    requires TransferOk(d, log) && |buf| == MAX_FRAME && len <= MAX_FRAME
    ensures var o := HandleData(d, buf, len, fates); TransferOk(o.device, Accept(d, buf, o, log))
  {
    var chunkLen := FromLe16(buf[8..10]);
    hide AcceptChunk, FromLe16, FromLeU32, Receiving;
    if d.state == RecvData && 10 + chunkLen <= MAX_FRAME {
      var chunk := buf[10..10 + chunkLen];
      ChunkAccepted(d, chunk, fates);
      if AcceptChunk(d, chunk, fates).device.state != Error {
        hide Extended, F.Padded;
        ReceivingMore(d, chunk, log);
      }
    }
  }

  lemma CmdKeeps(d: Device, cmd: byte, fates: Fates)
    requires d.WellFormed()
    ensures var o := HandleCmd(d, cmd, fates);
            && o.device.WellFormed() && (o.device == d || o.device.state !in {RecvData, WaitEnd})
            && o.device.a == d.a && o.device.b == d.b
  {
    BootKeepsSlots(d, fates);
    hide BootDecide, ImageOk, ChooseTarget;
  }

  lemma BootKeepsSlots(d: Device, fates: Fates)
    ensures var o := BootDecide(d, fates); o.device.a == d.a && o.device.b == d.b && o.device.state == d.state
  {
    hide ImageOk, DecrementAttempts, MarkBad;
  }

  lemma PollKeeps(d: Device, buf: seq<byte>, len: nat, fates: Fates, log: seq<Chunk>)
    requires TransferOk(d, log) && |buf| == MAX_FRAME && 0 < len <= MAX_FRAME
    ensures var o := PollFrame(d, buf, len, fates); TransferOk(o.device, Accept(d, buf, o, log))
  {
    PollCases(d, buf, len, fates);
    var f, o := buf[..len], PollFrame(d, buf, len, fates);
    if len > 4 {
      CmdKeeps(d, f[4], fates);
    }
    DataKeeps(d, buf, len, fates, log);
    if len == 21 {
      var size, crc, version := FromLeU32(f[4..8]), FromLe32(f[8..12]), FromLe32(f[12..16]);
      if d.state == WaitHeader {
        HeaderStarts(d, size, crc, version, fates);
      }
      hide CrcOk, HandleCmd, HandleData, EraseSlot, FromLeU32, FromLe32, FromLe16, Receiving, PollFrame;
      assert d.state != WaitHeader ==> HandleHeader(d, size, crc, version, fates).device == d;
    } else {
      hide CrcOk, HandleCmd, HandleData, FromLeU32, FromLe32, FromLe16, Receiving, PollFrame;
    }
  }

  lemma StepKeeps(s: System, e: Event, log: seq<Chunk>)
    requires TransferOk(s.dev, log) && Possible(e) && !e.Rot?
    ensures TransferOk(Step(s, e).dev, Log(s, e, log))
  {
    match e
    case Poll(buf, len, fates) =>
      if s.mode == Bootloader {
        PollKeeps(s.dev, buf, len, fates, log);
      }
    case Restart(button, fates) =>
      BootKeepsSlots(Booted(s.dev), fates);
    case AppConfirm(fate) =>
  }

  /** On every run, whatever is lost, repeated, reordered, corrupted, failed or cut: the accepted chunks carry the
      sequence numbers 0, 1, 2, ... exactly once, and the target slot starts with their concatenation. */
  lemma {:induction false} ExactlyOnce(s: System, es: seq<Event>, log: seq<Chunk>)
    requires forall e :: e in es ==> Possible(e) && !e.Rot?
    requires TransferOk(s.dev, log)
    ensures TransferOk(Run(s, es).dev, LogOf(s, es, log))
  {
    hide TransferOk, Step, Log;
    if es != [] {
      ExactlyOnce(s, es[..|es| - 1], log);
      StepKeeps(Run(s, es[..|es| - 1]), es[|es| - 1], LogOf(s, es[..|es| - 1], log));
    }
  }

  // ---- refusals ----

  /** A DATA frame out of sequence, in particular a repeated one, is answered and changes nothing. */
  lemma OutOfSequenceChangesNothing(d: Device, seqNo: u32, chunk: seq<byte>, buf: seq<byte>, fates: Fates)
    requires d.state == RecvData && |chunk| + DATA_PREFIX + OVERHEAD <= MAX_FRAME == |buf|
    requires buf[..|DataFrame(seqNo, chunk)|] == DataFrame(seqNo, chunk)
    requires seqNo != d.session.expectedSeq
    ensures PollFrame(d, buf, |chunk| + DATA_PREFIX + OVERHEAD, fates) == Reply(d, SeqErr, d.session.expectedSeq)
  {
    hide CrcOk, DataFrame, FromLe16, FromLeU32, AcceptChunk;
    DataFrameFields(seqNo, chunk);
    var f := DataFrame(seqNo, chunk);
    assert f[2..4] == buf[2..4] && f[4..8] == buf[4..8] && f[8..10] == buf[8..10];
  }

  /** A follow-up chunk after one that did not fill whole doublewords is refused before anything is programmed. */
  lemma UnalignedChunkRefused(d: Device, chunk: seq<byte>, fates: Fates)
    requires d.state == RecvData && d.target != NoSlot && d.session.receivedSize % F.DOUBLEWORD != 0
    requires d.session.receivedSize + |chunk| <= d.session.imageSize
    ensures AcceptChunk(d, chunk, fates) == Reply(d.(state := Error), FlashErr, d.session.receivedSize)
  {}

  /** A failed transfer is left by an ABORT command and by nothing else. */
  lemma ErrorLeftOnlyByAbort(d: Device, buf: seq<byte>, len: nat, fates: Fates)
    requires d.state == Error && |buf| == MAX_FRAME && 0 < len <= MAX_FRAME
    ensures var f, o := buf[..len], PollFrame(d, buf, len, fates);
            o.device.state != Error <==> len == 13 && Accepted(f) && f[1] == PKT_CMD && f[4] == CMD_ABORT
  {
    hide CrcOk, FromLeU32, FromLe32, FromLe16, BootDecide, HandleEnd, AcceptChunk, EraseSlot, ChooseTarget;
  }

  // ---- when a slot changes ----

  /** An accepted HEADER frame has the slot erased. */
  predicate HeaderTaken(s: System, e: Event, slot: SlotId)
    requires Possible(e)
  {
    && e.Poll? && s.mode == Bootloader && s.dev.state == WaitHeader && s.dev.target == slot && e.len == 21
    && (var f := e.buf[..e.len]; Accepted(f) && f[1] == PKT_HEADER && 0 < FromLeU32(f[4..8]) <= SLOT_SIZE)
  }

  predicate ReceivesInto(s: System, slot: SlotId) {
    s.dev.state == RecvData && s.dev.target == slot
  }

  /** A DATA frame writes to the slot. */
  predicate ChunkTaken(s: System, e: Event, slot: SlotId)
    requires Possible(e) && slot != NoSlot
  {
    ReceivesInto(s, slot) && Step(s, e).dev.Slot(slot) != s.dev.Slot(slot)
  }

  lemma HeaderKeeps(d: Device, size: u32, crc: bv32, version: bv32, fates: Fates, slot: SlotId)
    requires d.WellFormed() && slot != NoSlot
    ensures var e := HandleHeader(d, size, crc, version, fates).device;
            !(d.state == WaitHeader && d.target == slot && 0 < size <= SLOT_SIZE) ==>
              e.Slot(slot) == d.Slot(slot)
              && (e.state == RecvData && e.target == slot ==> d.state == RecvData && d.target == slot)
  {
    hide EraseSlot;
  }

  lemma DataKeepsOthers(d: Device, buf: seq<byte>, len: nat, fates: Fates, slot: SlotId)
    requires d.WellFormed() && slot != NoSlot && |buf| == MAX_FRAME && len <= MAX_FRAME
    ensures var e := HandleData(d, buf, len, fates).device;
            && (!(d.state == RecvData && d.target == slot) ==> e.Slot(slot) == d.Slot(slot))
            && (e.state == RecvData && e.target == slot ==> d.state == RecvData && d.target == slot)
  {
    hide WriteSlot, DataFault, FromLeU32, FromLe16;
  }

  lemma PollKeepsSlot(d: Device, e: Event, slot: SlotId)
    requires d.WellFormed() && slot != NoSlot && Possible(e) && e.Poll? && !HeaderTaken(System(d, Bootloader), e, slot)
    ensures var f := PollFrame(d, e.buf, e.len, e.fates).device;
            && (!(d.state == RecvData && d.target == slot) ==> f.Slot(slot) == d.Slot(slot))
            && (f.state == RecvData && f.target == slot ==> d.state == RecvData && d.target == slot)
  {
    PollCases(d, e.buf, e.len, e.fates);
    var f := e.buf[..e.len];
    if e.len > 4 {
      CmdKeeps(d, f[4], e.fates);
    }
    if e.len == 21 {
      HeaderKeeps(d, FromLeU32(f[4..8]), FromLe32(f[8..12]), FromLe32(f[12..16]), e.fates, slot);
    }
    DataKeepsOthers(d, e.buf, e.len, e.fates, slot);
    hide CrcOk, HandleCmd, HandleHeader, HandleData, FromLeU32, FromLe32, PollFrame, Device.WellFormed;
  }

  /** Only accepted HEADER and DATA frames change a slot, and DATA comes only after a HEADER for it. */
  lemma StepKeepsSlot(s: System, e: Event, slot: SlotId)
    requires Possible(e) && !e.Rot? && s.dev.WellFormed() && slot != NoSlot && !HeaderTaken(s, e, slot)
    ensures !ChunkTaken(s, e, slot) ==> Step(s, e).dev.Slot(slot) == s.dev.Slot(slot)
    ensures ReceivesInto(Step(s, e), slot) ==> ReceivesInto(s, slot)
    ensures !ReceivesInto(s, slot) ==> !ChunkTaken(s, e, slot)
  {
    hide PollFrame, BootDecide;
    match e
    case Poll(buf, len, fates) =>
      if s.mode == Bootloader {
        PollKeepsSlot(s.dev, e, slot);
      }
    case Restart(button, fates) =>
      BootKeepsSlots(Booted(s.dev), fates);
    case AppConfirm(fate) =>
  }

  /** A slot keeps its content over every run without decay in which no HEADER for it is accepted. */
  lemma {:induction false} SlotKept(s: System, es: seq<Event>, n: nat, slot: SlotId)
    requires n <= |es| && (forall e :: e in es ==> Possible(e) && !e.Rot?) && TransferOk(s.dev, []) && slot != NoSlot
    requires !ReceivesInto(s, slot) && forall i :: 0 <= i < n ==> !HeaderTaken(StateAt(s, es, i), es[i], slot)
    ensures StateAt(s, es, n).dev.Slot(slot) == s.dev.Slot(slot) && !ReceivesInto(StateAt(s, es, n), slot)
  {
    hide HeaderTaken, Step, ReceivesInto;
    if n == 0 {
      StateEnds(s, es);
    } else {
      SlotKept(s, es, n - 1, slot);
      StateNext(s, es, n - 1);
      ExactlyOnce(s, es[..n - 1], []);
      StepKeepsSlot(StateAt(s, es, n - 1), es[n - 1], slot);
    }
  }

  /** A HEADER whose erase completes leaves the slot beginning with an erased byte. */
  lemma HeaderErases(s: System, e: Event, slot: SlotId)
    requires Possible(e) && s.dev.WellFormed() && slot != NoSlot && HeaderTaken(s, e, slot) && e.fates.slot == Done
    ensures var b := Step(s, e).dev.Slot(slot); |b| == SLOT_SIZE && b[0] == F.ERASED
  {
    var f := e.buf[..e.len];
    var size := FromLeU32(f[4..8]);
    EraseDone(s.dev.Slot(slot), size);
    PollCases(s.dev, e.buf, e.len, e.fates);
    hide CrcOk, FromLeU32, FromLe32, EraseSlot;
  }

  lemma EraseDone(s: seq<byte>, size: nat)
    requires |s| == SLOT_SIZE && 0 < size <= SLOT_SIZE
    ensures EraseSlot(s, size, Done).ok && EraseSlot(s, size, Done).content[0] == F.ERASED
  {
    PagesOfDoublewords(size);
    hide F.AlignUp;
    assert Blank(F.AlignUp(size, PAGE_SIZE))[0] == F.ERASED;
  }

  /** After a completed erase of the slot it begins with an erased byte until a chunk is written to it. */
  lemma {:induction false} ErasedSince(s: System, es: seq<Event>, k: nat, n: nat, slot: SlotId)
    requires k < n <= |es| && (forall e :: e in es ==> Possible(e) && !e.Rot?)
    requires TransferOk(s.dev, []) && slot != NoSlot
    requires HeaderTaken(StateAt(s, es, k), es[k], slot)
    requires forall i :: k <= i < n && HeaderTaken(StateAt(s, es, i), es[i], slot) ==> es[i].fates.slot == Done
    requires forall i :: k < i < n ==> !ChunkTaken(StateAt(s, es, i), es[i], slot)
    ensures var b := StateAt(s, es, n).dev.Slot(slot); |b| == SLOT_SIZE && b[0] == F.ERASED
  {
    hide HeaderTaken, ChunkTaken, Step;
    StateNext(s, es, n - 1);
    ExactlyOnce(s, es[..n - 1], []);
    var t := StateAt(s, es, n - 1);
    if HeaderTaken(t, es[n - 1], slot) {
      HeaderErases(t, es[n - 1], slot);
    } else {
      ErasedSince(s, es, k, n - 1, slot);
      StepKeepsSlot(t, es[n - 1], slot);
    }
  }
}
