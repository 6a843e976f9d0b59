/** A session at the bootloader, frame by frame: which frames are taken, what they do to the slot, and which moves of
    the engine's state there are. */
module Session {
  import opened Bytes
  import opened Protocol
  import opened Metadata
  import opened DeviceModel
  import opened FrameStream
  import opened SlotInvariant
  import opened BootSystem
  import opened Safety
  import opened Transfer
  import F = FlashStorage

  predicate IsCmd(f: seq<byte>, cmd: byte) {
    Accepted(f) && |f| == 13 && f[1] == PKT_CMD && f[4] == cmd
  }

  predicate IsHeader(f: seq<byte>) {
    Accepted(f) && |f| == 21 && f[1] == PKT_HEADER
  }

  /** A HEADER frame the engine acts on that came through the parser is the host's encoding of what it says. */
  lemma HeaderIsEncoded(f: seq<byte>)
    requires IsHeader(f) && WellFramed(f, MAX_FRAME)
    ensures f == HeaderFrame(FromLeU32(f[4..8]), FromLe32(f[8..12]), FromLe32(f[12..16]))
  {
    hide CrcOk, FromLe16, Le16, FromLeU32, LeU32, FromLe32, Le32, Seal;
    AcceptedIsSealed(f);
    Le16Canonical(f[2..4]);
    LeU32Canonical(f[4..8]);
    Le32Canonical(f[8..12]);
    Le32Canonical(f[12..16]);
    assert f[..16] == [SOF, PKT_HEADER] + f[2..4] + f[4..8] + f[8..12] + f[12..16];
  }

  /** A DATA frame that passes the engine's checks is the host's encoding of the next sequence number and a chunk. */
  lemma DataIsEncoded(d: Device, buf: seq<byte>, len: nat)
    requires |buf| == MAX_FRAME && 0 < len <= MAX_FRAME && Accepted(buf[..len]) && buf[1] == PKT_DATA
    requires DataFault(d, FromLe16(buf[2..4]), FromLe16(buf[8..10]), len, FromLeU32(buf[4..8])).0 == Ok
    ensures 15 <= len && buf[..len] == DataFrame(d.session.expectedSeq, buf[10..len - 5])
    ensures len - 15 == FromLe16(buf[8..10])
  {
    hide CrcOk, FromLe16, Le16, FromLeU32, LeU32, Seal;
    var f := buf[..len];
    AcceptedIsSealed(f);
    Le16Canonical(buf[2..4]);
    LeU32Canonical(buf[4..8]);
    Le16Canonical(buf[8..10]);
    assert f[..len - 5] == [SOF, PKT_DATA] + buf[2..4] + buf[4..8] + buf[8..10] + buf[10..len - 5];
  }

  /** While data is received, a poll changes something only by ABORT, or by the host's frame with the next sequence
      number, whose chunk it then takes, whole and nothing else. */
  lemma OnlyNextChunkTaken(d: Device, buf: seq<byte>, len: nat, fates: Fates)
    requires d.state == RecvData && |buf| == MAX_FRAME && 0 < len <= MAX_FRAME
    requires PollFrame(d, buf, len, fates).device != d && !IsCmd(buf[..len], CMD_ABORT)
    ensures var chunk := if 15 <= len then buf[10..len - 5] else [];
            && 15 <= len && buf[..len] == DataFrame(d.session.expectedSeq, chunk)
            && PollFrame(d, buf, len, fates) == AcceptChunk(d, chunk, fates)
  {
    PollCases(d, buf, len, fates);
    hide CrcOk, FromLe16, FromLeU32, FromLe32, AcceptChunk, PollFrame, DataFrame, BootDecide, HandleEnd, EraseSlot;
    var payload, chunkLen, seqNo := FromLe16(buf[2..4]), FromLe16(buf[8..10]), FromLeU32(buf[4..8]);
    if DataFault(d, payload, chunkLen, len, seqNo).0 == Ok && Accepted(buf[..len]) && buf[1] == PKT_DATA {
      DataIsEncoded(d, buf, len);
    }
  }

  lemma CmdMoves(d: Device, cmd: byte, fates: Fates)
    requires HandleCmd(d, cmd, fates).device.state != d.state
    ensures var o := HandleCmd(d, cmd, fates);
            match o.device.state
            case WaitHeader => d.state == Idle && cmd == CMD_START
            case Error => d.state == WaitEnd && cmd == CMD_END
            case Idle =>
              cmd == CMD_ABORT || (d.state == WaitEnd && cmd == CMD_END && o.sent == [Status(Ok, Idle, Number(0))])
            case _ => false
  {
    BootKeepsSlots(d, fates);
    hide BootDecide, ImageOk, ChooseTarget, SetPending;
  }

  lemma HeaderMoves(d: Device, size: u32, crc: bv32, version: bv32, fates: Fates)
    requires HandleHeader(d, size, crc, version, fates).device.state != d.state
    ensures var o := HandleHeader(d, size, crc, version, fates);
            && d.state == WaitHeader && o.device.state in {RecvData, Error, Idle}
            && (o.device.state == Idle ==>
                  !(0 < size <= SLOT_SIZE) && o.sent == [Status(TooLarge, Idle, Number(size))])
  {
    hide EraseSlot;
  }

  lemma DataMoves(d: Device, buf: seq<byte>, len: nat, fates: Fates)
    requires |buf| == MAX_FRAME && len <= MAX_FRAME && HandleData(d, buf, len, fates).device.state != d.state
    ensures d.state == RecvData && HandleData(d, buf, len, fates).device.state in {WaitEnd, Error}
  {
    hide WriteSlot, DataFault, FromLe16, FromLeU32;
  }

  /** The ways through a session: each state is entered from the one before by its own frame, ERROR from the three that
      work on a transfer, and IDLE by ABORT, by a HEADER whose size does not fit and by an END that is answered OK. */
  lemma StateMoves(d: Device, buf: seq<byte>, len: nat, fates: Fates)
    requires |buf| == MAX_FRAME && 0 < len <= MAX_FRAME && PollFrame(d, buf, len, fates).device.state != d.state
    ensures var o, f := PollFrame(d, buf, len, fates), buf[..len];
            && Accepted(f)
            && match o.device.state
               case WaitHeader => d.state == Idle && IsCmd(f, CMD_START)
               case RecvData => d.state == WaitHeader && IsHeader(f)
               case WaitEnd => d.state == RecvData && f[1] == PKT_DATA
               case Error =>
                 || (d.state == WaitHeader && IsHeader(f)) || (d.state == RecvData && f[1] == PKT_DATA)
                 || (d.state == WaitEnd && IsCmd(f, CMD_END))
               case Idle =>
                 || IsCmd(f, CMD_ABORT)
                 || (d.state == WaitHeader && IsHeader(f) && !(0 < FromLeU32(f[4..8]) <= SLOT_SIZE)
                     && o.sent == [Status(TooLarge, Idle, Number(FromLeU32(f[4..8])))])
                 || (d.state == WaitEnd && IsCmd(f, CMD_END) && o.sent == [Status(Ok, Idle, Number(0))])
  {
    PollCases(d, buf, len, fates);
    var f, o := buf[..len], PollFrame(d, buf, len, fates);
    hide CrcOk, FromLeU32, FromLe32, PollFrame, HandleCmd, HandleHeader, HandleData;
    if len == 13 && o == HandleCmd(d, f[4], fates) {
      CmdMoves(d, f[4], fates);
    }
    if len == 21 {
      var size, crc, version := FromLeU32(f[4..8]), FromLe32(f[8..12]), FromLe32(f[12..16]);
      if o == HandleHeader(d, size, crc, version, fates) {
        HeaderMoves(d, size, crc, version, fates);
      }
    }
    if o == HandleData(d, buf, len, fates) {
      DataMoves(d, buf, len, fates);
    }
  }

  /** The frames that belong to a state. */
  predicate Belongs(state: EngineState, f: seq<byte>) {
    || IsCmd(f, CMD_ABORT)
    || (state == Idle && (IsCmd(f, CMD_META) || IsCmd(f, CMD_START) || IsCmd(f, CMD_QUERY) || IsCmd(f, CMD_BOOT)))
    || (state == WaitHeader && IsHeader(f))
    || (state == RecvData && Accepted(f) && f[1] == PKT_DATA)
    || (state == WaitEnd && IsCmd(f, CMD_END))
  }

  /** Every other frame is answered and changes nothing: BAD_CRC for a wrong checksum, BAD_FRAME for a wrong marker,
      type or length, and BAD_STATE for a sound frame out of place, such as START or BOOT during a transfer. */
  lemma OthersRefused(d: Device, buf: seq<byte>, len: nat, fates: Fates)
    requires |buf| == MAX_FRAME && 0 < len <= MAX_FRAME && !Belongs(d.state, buf[..len])
    ensures var o, f := PollFrame(d, buf, len, fates), buf[..len];
            && o.device == d && o.jump == NoSlot && |o.sent| == 1 && o.sent[0].Status?
            && (o.sent[0].code == BadCrc <==> CommonOk(f) && !CrcOk(f))
            && (o.sent[0].code == BadState <==>
                  Accepted(f) && (IsHeader(f) || f[1] == PKT_DATA || (len == 13 && IsCmd(f, f[4]))))
            && o.sent[0].code in {BadCrc, BadState, BadFrame}
  {
    hide CrcOk, FromLe16, FromLeU32, FromLe32;
  }

  /** ABORT ends a session in every state and touches neither slot nor record. */
  lemma AbortEnds(d: Device, buf: seq<byte>, len: nat, fates: Fates)
    requires |buf| == MAX_FRAME && 0 < len <= MAX_FRAME && IsCmd(buf[..len], CMD_ABORT)
    ensures var o := PollFrame(d, buf, len, fates);
            && o.sent == [Status(Ok, Idle, Number(0))] && o.jump == NoSlot
            && o.device == d.(state := Idle, session := NO_SESSION, target := NoSlot)
  {
    hide CrcOk;
  }

  /** START in IDLE begins a session for a slot that is not the active one, nor the confirmed one where none is active,
      and slot A on a blank device; it answers with the slot's number and touches neither slots nor record. */
  lemma StartBegins(d: Device, buf: seq<byte>, len: nat, fates: Fates)
    requires |buf| == MAX_FRAME && 0 < len <= MAX_FRAME && IsCmd(buf[..len], CMD_START) && d.state == Idle
    ensures var o, m := PollFrame(d, buf, len, fates), LoadOrDefault(d.meta);
            var target := o.device.target;
            && target != NoSlot && target != m.active && (m.active == NoSlot ==> target != m.confirmed)
            && (m.active == NoSlot && m.confirmed == NoSlot ==> target == A)
            && o.sent == [Status(Ok, WaitHeader, Number(if target == A then 0 else 1))] && o.jump == NoSlot
            && o.device == d.(state := WaitHeader, session := NO_SESSION, target := target, ctrl := m)
  {
    hide CrcOk;
  }

  /** BOOT in IDLE starts the pending image if it can be started, else a sound confirmed one; it is answered OK with the
      slot's number, or BOOT_ERR, which comes twice when there was a record to decide by. */
  lemma BootStarts(d: Device, buf: seq<byte>, len: nat, fates: Fates)
    requires |buf| == MAX_FRAME && 0 < len <= MAX_FRAME && IsCmd(buf[..len], CMD_BOOT) && d.state == Idle
    requires MetaOk(d.meta) && AllOrNothing(fates)
    ensures var o, c, failed := PollFrame(d, buf, len, fates), ConfirmedOf(d), Status(BootErr, Idle, Number(0));
            && o.jump == (if Startable(d, fates) then PendingOf(d) else if c != NoSlot && Sound(d, c) then c else NoSlot)
            && o.sent == (if o.jump != NoSlot then [Status(Ok, Idle, Number(if o.jump == A then 0 else 1))]
                          else if d.meta.None? then [failed] else [failed, failed])
            && o.device.a == d.a && o.device.b == d.b && o.device.state == Idle
  {
    BootDecideStarts(d, fates);
    BootKeepsSlots(d, fates);
    hide CrcOk, BootDecide, ImageOk, Startable;
  }

  /** In WAIT_HEADER a HEADER is accepted exactly if the image fits and the erase completes; a size that does not fit
      ends the session, a failed erase is an error. */
  lemma HeaderOkIff(d: Device, size: u32, crc: bv32, version: bv32, fates: Fates)
    requires d.WellFormed() && d.state == WaitHeader && d.target != NoSlot
    ensures var o := HandleHeader(d, size, crc, version, fates);
            && |o.sent| == 1 && o.sent[0].Status? && o.device.meta == d.meta
            && (o.sent[0].code == Ok <==> 0 < size <= SLOT_SIZE && fates.slot == Done)
            && (o.sent[0].code == TooLarge <==> !(0 < size <= SLOT_SIZE))
            && (o.sent[0].code != Ok <==> o.device.state == if o.sent[0].code == TooLarge then Idle else Error)
            && (o.sent[0].code == TooLarge ==> o.device == d.(state := Idle, session := NO_SESSION, target := NoSlot))
  {
    if size <= SLOT_SIZE {
      PagesOfDoublewords(size);
    }
    hide F.AlignUp;
  }

  /** An accepted HEADER starts the count at nothing and erases exactly the pages that cover the image. */
  lemma HeaderErasesPages(d: Device, size: u32, crc: bv32, version: bv32, fates: Fates) returns (n: nat)
    requires d.WellFormed() && d.state == WaitHeader && d.target != NoSlot && 0 < size <= SLOT_SIZE
    requires fates.slot == Done
    ensures size <= n < size + 2048 && n % 2048 == 0 && n <= SLOT_SIZE
    ensures var o := HandleHeader(d, size, crc, version, fates);
            && o.sent == [Status(Ok, RecvData, Number(0))] && o.device.state == RecvData
            && o.device.session == Session(0, 0, size, crc, version) && o.device.target == d.target
            && o.device.Slot(Other(d.target)) == d.Slot(Other(d.target)) && o.device.meta == d.meta
            && (forall i :: 0 <= i < n ==> o.device.Slot(d.target)[i] == 0xFF)
            && o.device.Slot(d.target)[n..] == d.Slot(d.target)[n..]
  {
    n := F.AlignUp(size, PAGE_SIZE);
    PagesOfDoublewords(size);
    PagesFit(size);
    hide F.AlignUp;
    assert Blank(n) + d.Slot(d.target)[n..] == Splice(d.Slot(d.target), 0, Blank(n));
  }

  lemma PagesFit(size: nat)
    ensures F.AlignUp(size, PAGE_SIZE) < size + 2048 && F.AlignUp(size, PAGE_SIZE) % 2048 == 0
  {
    var k := (size + PAGE_SIZE - 1) / PAGE_SIZE;
    assert F.AlignUp(size, PAGE_SIZE) == k * PAGE_SIZE;
  }

  /** A chunk is accepted exactly if it is not empty, follows whole doublewords, fits into the image and the slot, and
      the write completes; everything else is an error, a chunk beyond the image one of the frame. */
  lemma ChunkOkIff(d: Device, chunk: seq<byte>, fates: Fates)
    requires d.WellFormed() && d.target != NoSlot && d.state == RecvData
    ensures var o, at := AcceptChunk(d, chunk, fates), d.session.receivedSize;
            && |o.sent| == 1 && o.sent[0].Status? && o.device.meta == d.meta
            && (o.sent[0].code == Ok <==>
                  && chunk != [] && at % 8 == 0 && at + |chunk| <= d.session.imageSize
                  && at + (|chunk| + 7) / 8 * 8 <= SLOT_SIZE && fates.slot == Done)
            && (o.sent[0].code == BadFrame <==> at + |chunk| > d.session.imageSize)
            && (o.sent[0].code != Ok <==> o.device.state == Error)
            && (o.sent[0].code == BadFrame ==> o.device == d.(state := Error))
  {
    assert F.AlignUp(|chunk|, F.DOUBLEWORD) == (|chunk| + 7) / 8 * 8;
    hide F.AlignUp;
  }

  /** A chunk answered OK stands in the slot where the count was, padded to a doubleword with erased bytes; every other
      byte is as before, and the count has moved on by its length. */
  lemma ChunkWritten(d: Device, chunk: seq<byte>, fates: Fates, i: nat)
    requires d.WellFormed() && d.target != NoSlot && i < SLOT_SIZE && d.state == RecvData
    requires AcceptChunk(d, chunk, fates).sent[0].code == Ok
    ensures var e, at := AcceptChunk(d, chunk, fates).device, d.session.receivedSize;
            && e.session.receivedSize == at + |chunk| <= d.session.imageSize && chunk != []
            && e.Slot(Other(d.target)) == d.Slot(Other(d.target))
            && (e.state == WaitEnd <==> at + |chunk| == d.session.imageSize)
            && e.Slot(d.target)[i] ==
               if at <= i < at + |chunk| then chunk[i - at]
               else if at + |chunk| <= i < at + (|chunk| + 7) / 8 * 8 then 0xFF
               else d.Slot(d.target)[i]
  {
    assert F.AlignUp(|chunk|, F.DOUBLEWORD) == (|chunk| + 7) / 8 * 8;
    hide F.AlignUp;
  }
}
