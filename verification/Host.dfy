/** The host tool's firmware update, talking to the engine over a lossless link. */
module Host {
  import opened Bytes
  import opened Crc32
  import opened Protocol
  import opened Metadata
  import opened DeviceModel
  import opened SlotInvariant
  import opened BootSystem
  import opened Transfer
  import opened Engine
  import F = FlashStorage

  // ---- what the engine makes of each frame ----

  lemma CmdFrameHandled(d: Device, buf: seq<byte>, cmd: byte, fates: Fates)
    requires |buf| == MAX_FRAME && buf[..|CmdFrame(cmd)|] == CmdFrame(cmd)
    ensures |CmdFrame(cmd)| == 13 && PollFrame(d, buf, 13, fates) == HandleCmd(d, cmd, fates)
  {
    hide CrcOk, CmdFrame, HandleCmd;
    CmdFrameFields(cmd);
  }

  lemma HeaderFrameHandled(d: Device, buf: seq<byte>, size: u32, crc: bv32, version: bv32, fates: Fates)
    requires |buf| == MAX_FRAME && buf[..|HeaderFrame(size, crc, version)|] == HeaderFrame(size, crc, version)
    ensures |HeaderFrame(size, crc, version)| == 21
    ensures PollFrame(d, buf, 21, fates) == HandleHeader(d, size, crc, version, fates)
  {
    hide CrcOk, HeaderFrame, HandleHeader, FromLeU32, FromLe32;
    HeaderFrameFields(size, crc, version);
  }

  lemma DataFrameHandled(d: Device, buf: seq<byte>, seqNo: u32, chunk: seq<byte>, fates: Fates)
    requires |chunk| + DATA_PREFIX + OVERHEAD <= MAX_FRAME == |buf|
    requires buf[..|DataFrame(seqNo, chunk)|] == DataFrame(seqNo, chunk)
    requires d.state == RecvData && d.session.expectedSeq == seqNo
    ensures PollFrame(d, buf, |DataFrame(seqNo, chunk)|, fates) == AcceptChunk(d, chunk, fates)
  {
    hide CrcOk, DataFrame, AcceptChunk, FromLeU32, FromLe16;
    DataFrameFields(seqNo, chunk);
    var f := DataFrame(seqNo, chunk);
    assert f[2..4] == buf[2..4] && f[4..8] == buf[4..8] && f[8..10] == buf[8..10];
    assert f[10..10 + |chunk|] == buf[10..10 + |chunk|];
  }

  // ---- a smooth session on values ----

  /** The transfer of `image` into `target`, of which the first `off` bytes have arrived. */
  ghost predicate Sending(d: Device, start: Device, image: seq<byte>, crc: bv32, version: bv32, off: nat,
      seqNo: nat, log: seq<Chunk>) {
    && TransferOk(d, log) && off <= |image| <= SLOT_SIZE && 0 < |image|
    && d.state == (if off < |image| then RecvData else WaitEnd)
    && d.session == Session(seqNo % U32_MODULUS, off, |image|, crc, version) && seqNo == |log|
    && Payload(log) == image[..off]
    && d.target == ChooseTarget(LoadOrDefault(start.meta)) && d.meta == start.meta
    && d.Slot(Other(d.target)) == start.Slot(Other(d.target))
  }

  lemma StartHandled(d: Device)
    requires d.WellFormed() && d.state == Idle
    ensures var o := HandleCmd(d, CMD_START, SMOOTH); var target := ChooseTarget(LoadOrDefault(d.meta));
            && o.device == d.Refreshed().Reset().(target := target, state := WaitHeader) && o.jump == NoSlot
            && o.sent == [Status(Ok, WaitHeader, Number(SlotNumber(target)))] && target != NoSlot
  {}

  lemma HeaderHandled(d: Device, start: Device, image: seq<byte>, crc: bv32, version: bv32)
    requires d.WellFormed() && start.WellFormed() && |image| < U32_MODULUS && d.state == WaitHeader
    requires d.target == ChooseTarget(LoadOrDefault(start.meta)) && d.meta == start.meta && d.a == start.a
        && d.b == start.b
    ensures var o := HandleHeader(d, |image|, crc, version, SMOOTH);
            && o.jump == NoSlot && |o.sent| == 1 && o.sent[0].Status?
            && (o.sent[0].code == Ok <==> 0 < |image| <= SLOT_SIZE)
            && (0 < |image| <= SLOT_SIZE ==> Sending(o.device, start, image, crc, version, 0, 0, []))
  {
    var size := |image|;
    assert image[..0] == [];
    if 0 < size <= SLOT_SIZE {
      PagesOfDoublewords(size);
      HeaderStarts(d, size, crc, version, SMOOTH);
      hide F.AlignUp, Blank, Receiving;
    }
  }

  /** A chunk is accepted exactly when it is not empty and the bytes before it fill whole doublewords. */
  lemma ChunkHandled(d: Device, start: Device, image: seq<byte>, crc: bv32, version: bv32, off: nat, seqNo: nat,
      log: seq<Chunk>, n: nat)
    requires Sending(d, start, image, crc, version, off, seqNo, log) && start.WellFormed()
    requires off < |image| && 0 < n <= |image| - off
    ensures var chunk := image[off..off + n]; var o := AcceptChunk(d, chunk, SMOOTH);
            && o.jump == NoSlot && |o.sent| == 1 && o.sent[0].Status?
            && (o.sent[0].code == Ok <==> off % F.DOUBLEWORD == 0)
            && (off % F.DOUBLEWORD == 0 ==>
                  Sending(o.device, start, image, crc, version, off + n, seqNo + 1,
                    log + [Chunk(seqNo % U32_MODULUS, chunk)]))
  {
    hide F.AlignUp, F.Padded, Splice, Payload, AcceptChunk, SlotHolds;
    var chunk := image[off..off + n];
    if off % F.DOUBLEWORD == 0 {
      ChunkFits(off, n, |image|);
      PaddedLength(chunk);
      ReceivingMore(d, chunk, log);
      PayloadAppend(log, Chunk(d.session.expectedSeq, chunk));
      SmoothChunk(d, chunk);
      assert image[..off + n] == image[..off] + chunk;
    } else {
      UnalignedChunkRefused(d, chunk, SMOOTH);
    }
  }

  lemma PaddedLength(data: seq<byte>)
    ensures |F.Padded(data)| == F.AlignUp(|data|, F.DOUBLEWORD)
  {}

  lemma SmoothChunk(d: Device, chunk: seq<byte>)
    requires d.WellFormed() && d.target != NoSlot && chunk != [] && d.session.receivedSize % F.DOUBLEWORD == 0
    requires d.session.receivedSize + |chunk| <= d.session.imageSize
    requires d.session.receivedSize + |F.Padded(chunk)| <= SLOT_SIZE
    ensures AcceptChunk(d, chunk, SMOOTH) == Reply(Extended(d, chunk), Ok, 0)
  {
    hide F.AlignUp, F.Padded, Splice;
  }

  /** The record after END: the target pending with the image's numbers and three attempts. */
  ghost predicate Installed(d: Device, slot: SlotId, image: seq<byte>, crc: bv32, version: bv32, attempts: u8)
    requires slot != NoSlot
  {
    && d.meta.Some? && d.meta.value.pending == slot
    && |image| <= |d.Slot(slot)| && d.Slot(slot)[..|image|] == image
    && (var i := d.meta.value.Info(slot);
        i.version == version && i.size == |image| && i.crc == crc && i.state == Pending && i.attempts == attempts)
  }

  lemma EndHandled(d: Device, start: Device, image: seq<byte>, crc: bv32, version: bv32, seqNo: nat, log: seq<Chunk>)
    requires Sending(d, start, image, crc, version, |image|, seqNo, log) && crc == Crc(image, 0)
    ensures var o := HandleCmd(d, CMD_END, SMOOTH);
            && o.jump == NoSlot && |o.sent| == 1 && o.sent[0].Status?
            && (o.sent[0].code == Ok <==> crc != 0 && version != 0)
            && (crc != 0 && version != 0 ==>
                  && o.device.state == Idle && o.device.a == d.a && o.device.b == d.b
                  && Installed(o.device, d.target, image, crc, version, MAX_BOOT_ATTEMPTS))
  {
    assert image[..|image|] == image;
    hide Crc, F.AllErased, F.AlignUp, Payload, ChooseTarget;
  }

  lemma BootHandled(d: Device, slot: SlotId, image: seq<byte>, crc: bv32, version: bv32)
    requires slot != NoSlot && d.state == Idle && Installed(d, slot, image, crc, version, MAX_BOOT_ATTEMPTS)
    requires 0 < |image| && crc == Crc(image, 0) && crc != 0
    ensures var o := HandleCmd(d, CMD_BOOT, SMOOTH);
            && o.jump == slot && o.sent == [Status(Ok, Idle, Number(SlotNumber(slot)))]
            && o.device.a == d.a && o.device.b == d.b
            && Installed(o.device, slot, image, crc, version, MAX_BOOT_ATTEMPTS - 1)
  {
    hide Crc;
  }

  // ---- the tool ----

  /** Computes the seal with the host's table. */
  method SealFrame(table: seq<bv32>, body: seq<byte>) returns (f: seq<byte>)
    requires IsCrcTable(table)
    ensures f == Seal(body)
  {
    hide IsCrcTable, Crc;
    var crc := HostCrc(table, body);
    f := body + Le32(crc) + [EOF];
  }

  /** One exchange over the lossless link: the frame is polled and the first answer comes back. */
  method Exchange(e: BootEngine, buf: array<byte>, f: seq<byte>)
    returns (reply: Message, jump: SlotId, ghost raw: seq<byte>)
    requires e.Valid() && e.flash.reliable && buf.Length == MAX_FRAME && buf != e.flash.mem && 0 < |f| <= MAX_FRAME
    requires exists log :: TransferOk(e.View(), log)
    modifies e, e.flash`depth, e.flash`overwrites, e.flash.mem, buf
    ensures |raw| == MAX_FRAME && raw[..|f|] == f
    ensures var o := PollFrame(old(e.View()), raw, |f|, SMOOTH);
            && e.View() == o.device && jump == o.jump && (o.sent != [] ==> reply == o.sent[0])
    ensures e.flash.depth == old(e.flash.depth) && e.flash.overwrites == old(e.flash.overwrites)
  {
    hide PollFrame, TransferOk;
    forall i | 0 <= i < |f| {
      buf[i] := f[i];
    }
    raw := buf[..];
    assert raw[..|f|] == f;
    ghost var fates;
    var before := |e.sent|;
    jump, fates := e.Poll(buf, |f|);
    reply := if before < |e.sent| then e.sent[before] else Meta(DEFAULT_RECORD);
  }

  predicate IsOk(m: Message) {
    m.Status? && m.code == Ok
  }

  /** META: the host learns the device's record. */
  method AskMeta(e: BootEngine, buf: array<byte>, table: seq<bv32>) returns (m: Record)
    requires e.Valid() && e.flash.reliable && buf.Length == MAX_FRAME && buf != e.flash.mem && IsCrcTable(table)
    requires e.state == Idle
    modifies e, e.flash`depth, e.flash`overwrites, e.flash.mem, buf
    ensures e.View() == old(e.View()).Refreshed() && m == LoadOrDefault(old(e.StoredRecord()))
    ensures e.flash.overwrites == old(e.flash.overwrites)
  {
    hide PollFrame, IsCrcTable, ChooseTarget;
    ghost var d := e.View();
    var f := SealFrame(table, CmdBody(CMD_META));
    assert f == CmdFrame(CMD_META);
    CmdFrameLength(CMD_META);
    var reply, jump;
    ghost var raw;
    assert TransferOk(e.View(), []);
    reply, jump, raw := Exchange(e, buf, f);
    CmdFrameHandled(d, raw, CMD_META, SMOOTH);
    m := if reply.Meta? then reply.ctrl else DEFAULT_RECORD;
  }

  lemma CmdFrameLength(cmd: byte)
    ensures |CmdFrame(cmd)| == 13
  {}

  lemma HeaderFrameLength(size: u32, crc: bv32, version: bv32)
    ensures |HeaderFrame(size, crc, version)| == 21
  {}

  /** START: the device chooses its target and waits for the header. */
  method Start(e: BootEngine, buf: array<byte>, table: seq<bv32>) returns (ok: bool)
    requires e.Valid() && e.flash.reliable && buf.Length == MAX_FRAME && buf != e.flash.mem && IsCrcTable(table)
    requires e.state == Idle
    modifies e, e.flash`depth, e.flash`overwrites, e.flash.mem, buf
    ensures ok && e.flash.overwrites == old(e.flash.overwrites)
    ensures var d := old(e.View());
            e.View() == d.Refreshed().Reset().(target := ChooseTarget(LoadOrDefault(d.meta)), state := WaitHeader)
  {
    hide PollFrame, IsCrcTable, ChooseTarget, HandleCmd;
    ghost var start := e.View();
    var f := SealFrame(table, CmdBody(CMD_START));
    assert f == CmdFrame(CMD_START);
    CmdFrameLength(CMD_START);
    var reply, jump;
    ghost var raw;
    assert TransferOk(e.View(), []);
    reply, jump, raw := Exchange(e, buf, f);
    CmdFrameHandled(start, raw, CMD_START, SMOOTH);
    StartHandled(start);
    ok := IsOk(reply);
  }

  /** HEADER: accepted exactly for images that fit; then the transfer begins. */
  method SendHeader(e: BootEngine, buf: array<byte>, table: seq<bv32>, ghost start: Device, image: seq<byte>,
      crc: bv32, version: bv32)
    returns (ok: bool)
    requires e.Valid() && e.flash.reliable && buf.Length == MAX_FRAME && buf != e.flash.mem && IsCrcTable(table)
    requires e.state == WaitHeader && |image| < U32_MODULUS && start.WellFormed()
    requires e.target == ChooseTarget(LoadOrDefault(start.meta)) && e.StoredRecord() == start.meta
    requires e.SlotContent(A) == start.a && e.SlotContent(B) == start.b
    modifies e, e.flash`depth, e.flash`overwrites, e.flash.mem, buf
    ensures ok <==> 0 < |image| <= SLOT_SIZE
    ensures ok ==> Sending(e.View(), start, image, crc, version, 0, 0, [])
    ensures e.flash.overwrites == old(e.flash.overwrites)
  {
    hide PollFrame, IsCrcTable, Sending, Receiving, ChooseTarget, HandleHeader;
    ghost var d := e.View();
    var f := SealFrame(table, HeaderBody(|image|, crc, version));
    assert f == HeaderFrame(|image|, crc, version);
    HeaderFrameLength(|image|, crc, version);
    var reply, jump;
    ghost var raw;
    assert TransferOk(e.View(), []);
    reply, jump, raw := Exchange(e, buf, f);
    HeaderFrameHandled(d, raw, |image|, crc, version, SMOOTH);
    HeaderHandled(d, start, image, crc, version);
    return IsOk(reply);
  }

  /** DATA: the chunks in order; all are accepted exactly if every chunk but the last fills whole doublewords. */
  method SendChunks(e: BootEngine, buf: array<byte>, table: seq<bv32>, ghost start: Device, image: seq<byte>, crc: bv32,
                    version: bv32, chunkSize: nat)
    returns (ok: bool, ghost seqNo: nat, ghost log: seq<Chunk>)
    requires e.Valid() && e.flash.reliable && buf.Length == MAX_FRAME && buf != e.flash.mem && IsCrcTable(table)
    requires start.WellFormed() && Sending(e.View(), start, image, crc, version, 0, 0, [])
    requires chunkSize + DATA_PREFIX + OVERHEAD <= MAX_FRAME
    modifies e, e.flash`depth, e.flash`overwrites, e.flash.mem, buf
    ensures ok <==> ChunksFit(|image|, chunkSize)
    ensures ok ==> Sending(e.View(), start, image, crc, version, |image|, seqNo, log)
    ensures e.flash.overwrites == old(e.flash.overwrites)
  {
    hide PollFrame, IsCrcTable, Receiving, ChooseTarget, Sending, Chunked, ChunksFit, Numbered;
    NumberedFirst();
    ChunkedEnds(|image|, chunkSize);
    var off := 0;
    var number: u32 := 0;
    seqNo, log := 0, [];
    SendingBounds(e.View(), start, image, crc, version, 0, 0, []);
    while off < |image|
      invariant 0 <= off <= |image| && Numbered(number, seqNo)
      invariant Sending(e.View(), start, image, crc, version, off, seqNo, log)
      invariant e.flash.overwrites == old(e.flash.overwrites)
      invariant Chunked(off, |image|, chunkSize)
    {
      ChunkedStep(off, |image|, chunkSize);
      var chunkLen := if |image| - off < chunkSize then |image| - off else chunkSize;
      if chunkLen == 0 {
        return false, seqNo, log;
      }
      ok := SendChunk(e, buf, table, start, image, crc, version, off, number, seqNo, log, chunkLen);
      if !ok {
        return;
      }
      NumberedNext(number, seqNo);
      log := log + [Chunk(number, image[off..off + chunkLen])];
      off := off + chunkLen;
      number := (number + 1) % U32_MODULUS;
      seqNo := seqNo + 1;
    }
    ok := true;
  }

  /** Where the chunk loop can stand in an image of n bytes sent in chunks of c. */
  ghost predicate Chunked(off: nat, n: nat, c: nat) {
    && off <= n && (off > 0 ==> c > 0) && (0 < off < n ==> c < n)
    && (c % F.DOUBLEWORD == 0 && off < n ==> off % F.DOUBLEWORD == 0)
    && (c % F.DOUBLEWORD != 0 ==> off == 0 || off == c || off == n <= c)
  }

  /** A chunk size that fills whole doublewords, unless one chunk is enough. */
  predicate ChunksFit(n: nat, c: nat) {
    c > 0 && (n <= c || c % F.DOUBLEWORD == 0)
  }

  /** The 32-bit sequence number of the chunk after seqNo others. */
  predicate Numbered(number: u32, seqNo: nat) {
    number == seqNo % U32_MODULUS
  }

  lemma NumberedFirst()
    ensures Numbered(0, 0)
  {}

  lemma NumberedNext(number: u32, seqNo: nat)
    requires Numbered(number, seqNo)
    ensures Numbered((number + 1) % U32_MODULUS, seqNo + 1)
  {}

  lemma ChunkedEnds(n: nat, c: nat)
    ensures Chunked(0, n, c)
    ensures Chunked(n, n, c) && n > 0 ==> ChunksFit(n, c)
  {}

  lemma ChunkedStep(off: nat, n: nat, c: nat)
    requires off < n && Chunked(off, n, c)
    ensures c == 0 ==> off == 0
    ensures c > 0 && off % F.DOUBLEWORD == 0 ==> Chunked(if n - off < c then n else off + c, n, c)
    ensures c == 0 || off % F.DOUBLEWORD != 0 ==> !ChunksFit(n, c)
  {}

  lemma SendingBounds(d: Device, start: Device, image: seq<byte>, crc: bv32, version: bv32, off: nat, seqNo: nat,
      log: seq<Chunk>)
    requires Sending(d, start, image, crc, version, off, seqNo, log)
    ensures 0 < |image| <= SLOT_SIZE && off <= |image| && TransferOk(d, log)
    ensures off < |image| ==> d.state == RecvData
    ensures off == |image| ==> d.state == WaitEnd
    ensures d.session.expectedSeq == seqNo % U32_MODULUS
  {}

  method SendChunk(e: BootEngine, buf: array<byte>, table: seq<bv32>, ghost start: Device, image: seq<byte>,
      ghost crc: bv32, ghost version: bv32, off: nat, number: u32, ghost seqNo: nat, ghost log: seq<Chunk>, n: nat)
    returns (ok: bool)
    requires e.Valid() && e.flash.reliable && buf.Length == MAX_FRAME && buf != e.flash.mem && IsCrcTable(table)
    requires start.WellFormed() && Sending(e.View(), start, image, crc, version, off, seqNo, log)
    requires off < |image| && 0 < n <= |image| - off && n + DATA_PREFIX + OVERHEAD <= MAX_FRAME
    requires Numbered(number, seqNo)
    modifies e, e.flash`depth, e.flash`overwrites, e.flash.mem, buf
    ensures ok <==> off % F.DOUBLEWORD == 0
    ensures var more := log + [Chunk(number, image[off..off + n])];
            ok ==> Sending(e.View(), start, image, crc, version, off + n, seqNo + 1, more)
    ensures e.flash.overwrites == old(e.flash.overwrites)
  {
    hide PollFrame, IsCrcTable, Sending, ChooseTarget, AcceptChunk, TransferOk;
    ghost var d := e.View();
    SendingBounds(d, start, image, crc, version, off, seqNo, log);
    var chunk := image[off..off + n];
    var f := SealFrame(table, DataBody(number, chunk));
    assert f == DataFrame(number, chunk);
    DataFrameLength(number, chunk);
    var reply, jump;
    ghost var raw;
    assert TransferOk(e.View(), log);
    reply, jump, raw := Exchange(e, buf, f);
    DataFrameHandled(d, raw, number, chunk, SMOOTH);
    ChunkHandled(d, start, image, crc, version, off, seqNo, log, n);
    return IsOk(reply);
  }

  lemma DataFrameLength(number: u32, chunk: seq<byte>)
    requires |chunk| + DATA_PREFIX < 0x1_0000
    ensures |DataFrame(number, chunk)| == |chunk| + DATA_PREFIX + OVERHEAD
  {}

  /** END: the device checks the image and records it as pending. */
  method SendEnd(e: BootEngine, buf: array<byte>, table: seq<bv32>, ghost start: Device, ghost image: seq<byte>,
      ghost crc: bv32, ghost version: bv32, ghost seqNo: nat, ghost log: seq<Chunk>)
    returns (ok: bool)
    requires e.Valid() && e.flash.reliable && buf.Length == MAX_FRAME && buf != e.flash.mem && IsCrcTable(table)
    requires Sending(e.View(), start, image, crc, version, |image|, seqNo, log) && crc == Crc(image, 0)
    modifies e, e.flash`depth, e.flash`overwrites, e.flash.mem, buf
    ensures ok <==> crc != 0 && version != 0
    ensures e.flash.overwrites == old(e.flash.overwrites)
    ensures var d, was := e.View(), old(e.View());
            ok ==> d.state == Idle && d.a == was.a && d.b == was.b && was.target != NoSlot
                   && Installed(d, was.target, image, crc, version, MAX_BOOT_ATTEMPTS)
  {
    hide PollFrame, IsCrcTable, Sending, ChooseTarget, HandleCmd, Crc, TransferOk, Installed;
    ghost var d := e.View();
    SendingBounds(d, start, image, crc, version, |image|, seqNo, log);
    SendingTarget(d, start, image, crc, version, |image|, seqNo, log);
    var f := SealFrame(table, CmdBody(CMD_END));
    assert f == CmdFrame(CMD_END);
    CmdFrameLength(CMD_END);
    var reply, jump;
    ghost var raw;
    assert TransferOk(e.View(), log);
    reply, jump, raw := Exchange(e, buf, f);
    CmdFrameHandled(d, raw, CMD_END, SMOOTH);
    EndHandled(d, start, image, crc, version, seqNo, log);
    ok := IsOk(reply);
  }

  lemma SendingTarget(d: Device, start: Device, image: seq<byte>, crc: bv32, version: bv32, off: nat, seqNo: nat,
      log: seq<Chunk>)
    requires Sending(d, start, image, crc, version, off, seqNo, log)
    ensures d.target != NoSlot && d.target == ChooseTarget(LoadOrDefault(start.meta))
    ensures d.Slot(Other(d.target)) == start.Slot(Other(d.target))
  {}

  /** BOOT: the device jumps to the freshly installed image. */
  method SendBoot(e: BootEngine, buf: array<byte>, table: seq<bv32>, ghost slot: SlotId, ghost image: seq<byte>,
      ghost crc: bv32, ghost version: bv32)
    returns (ok: bool, jump: SlotId)
    requires e.Valid() && e.flash.reliable && buf.Length == MAX_FRAME && buf != e.flash.mem && IsCrcTable(table)
    requires e.state == Idle && slot != NoSlot && Installed(e.View(), slot, image, crc, version, MAX_BOOT_ATTEMPTS)
    requires 0 < |image| && crc == Crc(image, 0) && crc != 0
    modifies e, e.flash`depth, e.flash`overwrites, e.flash.mem, buf
    ensures ok && jump == slot && e.flash.overwrites == old(e.flash.overwrites)
    ensures var d, was := e.View(), old(e.View());
            d.a == was.a && d.b == was.b && Installed(d, slot, image, crc, version, MAX_BOOT_ATTEMPTS - 1)
  {
    hide PollFrame, IsCrcTable, HandleCmd, Crc, Installed;
    ghost var d := e.View();
    var f := SealFrame(table, CmdBody(CMD_BOOT));
    assert f == CmdFrame(CMD_BOOT);
    CmdFrameLength(CMD_BOOT);
    var reply;
    ghost var raw;
    assert TransferOk(e.View(), []);
    reply, jump, raw := Exchange(e, buf, f);
    CmdFrameHandled(d, raw, CMD_BOOT, SMOOTH);
    BootHandled(d, slot, image, crc, version);
    ok := IsOk(reply);
  }

  datatype WriteResult = Finished | Skipped | Failed

  /** The target slot's record already names this image. */
  predicate AlreadyThere(m: Record, image: seq<byte>, crc: bv32, version: bv32) {
    var i := m.Info(ChooseTarget(m));
    i.crc == crc && i.size == |image| && i.version == version && i.state in {Valid, Confirmed, Pending}
  }

  /** What a skip means where the slot agrees with its record: the slot holds as many bytes with the same checksum, and
      the record names the same version and does not call the slot bad or empty. */
  lemma SkipMeansSame(d: Device, image: seq<byte>, version: bv32)
    requires var m := LoadOrDefault(d.meta);
             AlreadyThere(m, image, Crc(image, 0), version) && Sound(d, ChooseTarget(m))
    ensures SameChecksum(d, image, version)
  {
    hide Crc;
  }

  /** The target slot holds as many bytes as the image, with its checksum, under its version, and can be started. */
  ghost predicate SameChecksum(d: Device, image: seq<byte>, version: bv32) {
    var m := LoadOrDefault(d.meta);
    var target := ChooseTarget(m);
    && |image| <= |d.Slot(target)| && Crc(d.Slot(target)[..|image|], 0) == Crc(image, 0)
    && m.Info(target).version == version && m.Info(target).state !in {Empty, Bad}
  }

  /** An update that was installed is skipped when it is repeated. */
  lemma RepeatedUpdateSkipped(d: Device, slot: SlotId, image: seq<byte>, crc: bv32, version: bv32, attempts: u8)
    requires slot != NoSlot && MetaOk(d.meta) && Installed(d, slot, image, crc, version, attempts)
    ensures AlreadyThere(LoadOrDefault(d.meta), image, crc, version)
  {}

  /** What an update needs: an image that fits, a nonzero checksum and version, and chunks that fill whole doublewords
      unless one chunk is enough. */
  predicate Transferable(image: seq<byte>, crc: bv32, version: bv32, chunkSize: nat) {
    && 0 < |image| <= SLOT_SIZE && crc != 0 && version != 0
    && ChunksFit(|image|, chunkSize)
  }

  /** The whole update, META to BOOT. It finishes exactly when the image is transferable and not there already, and then
      the target slot holds the image byte for byte, the other slot is untouched, the image is pending with one trial
      used, the device has jumped to it, and no cell was programmed without being erased. */
  method DoWrite(e: BootEngine, buf: array<byte>, table: seq<bv32>, slotABin: seq<byte>, slotBBin: seq<byte>,
      version: bv32, chunkSize: nat)
    returns (r: WriteResult, jump: SlotId)
    requires e.Valid() && e.flash.reliable && buf.Length == MAX_FRAME && buf != e.flash.mem && IsCrcTable(table)
    requires e.state == Idle && |slotABin| < U32_MODULUS && |slotBBin| < U32_MODULUS
    requires chunkSize + DATA_PREFIX + OVERHEAD <= MAX_FRAME
    modifies e, e.flash`depth, e.flash`overwrites, e.flash.mem, buf
    ensures e.flash.overwrites == old(e.flash.overwrites)
    ensures var m := LoadOrDefault(old(e.StoredRecord()));
            var target := ChooseTarget(m);
            var image := if target == A then slotABin else slotBBin;
            var crc := Crc(image, 0);
            && (r == Skipped <==> image != [] && AlreadyThere(m, image, crc, version))
            && (r == Skipped ==> e.View() == old(e.View()).Refreshed())
            && (r == Skipped && Sound(old(e.View()), target) ==> SameChecksum(e.View(), image, version))
            && (r == Finished <==>
                  !AlreadyThere(m, image, crc, version) && Transferable(image, crc, version, chunkSize))
            && (r == Finished ==>
                  && jump == target
                  && e.SlotContent(target)[..|image|] == image
                  && e.SlotContent(Other(target)) == old(e.SlotContent(Other(target)))
                  && Installed(e.View(), target, image, crc, version, MAX_BOOT_ATTEMPTS - 1))
  {
    hide IsCrcTable, Crc, Installed, ChooseTarget, ImageOk;
    jump := NoSlot;
    ghost var start := e.View();
    var m := AskMeta(e, buf, table);
    var target := ChooseTarget(m);
    TargetIsSlot(m);
    var image := if target == A then slotABin else slotBBin;
    if image == [] {
      return Failed, jump;
    }
    var crc := HostCrc(table, image);
    var info := m.Info(target);
    if info.crc == crc && info.size == |image| && info.version == version
       && (info.state == Valid || info.state == Confirmed || info.state == Pending) {
      if Sound(start, target) {
        SkipMeansSame(start, image, version);
      }
      return Skipped, jump;
    }
    var ok;
    ok, jump := Install(e, buf, table, image, crc, version, chunkSize);
    return if ok then Finished else Failed, jump;
  }

  /** START to BOOT, once the host has decided to transfer an image. */
  method Install(e: BootEngine, buf: array<byte>, table: seq<bv32>, image: seq<byte>, crc: bv32, version: bv32,
      chunkSize: nat)
    returns (ok: bool, jump: SlotId)
    requires e.Valid() && e.flash.reliable && buf.Length == MAX_FRAME && buf != e.flash.mem && IsCrcTable(table)
    requires e.state == Idle && |image| < U32_MODULUS && crc == Crc(image, 0)
    requires chunkSize + DATA_PREFIX + OVERHEAD <= MAX_FRAME
    modifies e, e.flash`depth, e.flash`overwrites, e.flash.mem, buf
    ensures e.flash.overwrites == old(e.flash.overwrites)
    ensures ok <==> Transferable(image, crc, version, chunkSize)
    ensures var target := ChooseTarget(LoadOrDefault(old(e.StoredRecord())));
            && target != NoSlot
            && (ok ==>
                  && jump == target
                  && e.SlotContent(target)[..|image|] == image
                  && e.SlotContent(Other(target)) == old(e.SlotContent(Other(target)))
                  && Installed(e.View(), target, image, crc, version, MAX_BOOT_ATTEMPTS - 1))
  {
    hide IsCrcTable, Crc, Sending, TransferOk, Installed, ChooseTarget;
    jump := NoSlot;
    ghost var start := e.View();
    ghost var target := ChooseTarget(LoadOrDefault(start.meta));
    TargetIsSlot(LoadOrDefault(start.meta));
    ok := Start(e, buf, table);
    ok := SendHeader(e, buf, table, start, image, crc, version);
    if !ok {
      return;
    }
    ghost var seqNo, log;
    ok, seqNo, log := SendChunks(e, buf, table, start, image, crc, version, chunkSize);
    if !ok {
      return;
    }
    SendingTarget(e.View(), start, image, crc, version, |image|, seqNo, log);
    ok := SendEnd(e, buf, table, start, image, crc, version, seqNo, log);
    if !ok {
      return;
    }
    ok, jump := SendBoot(e, buf, table, target, image, crc, version);
    InstalledContent(e.View(), target, image, crc, version, MAX_BOOT_ATTEMPTS - 1);
  }

  lemma TargetIsSlot(m: Record)
    ensures ChooseTarget(m) != NoSlot
  {}

  lemma InstalledContent(d: Device, slot: SlotId, image: seq<byte>, crc: bv32, version: bv32, attempts: u8)
    requires slot != NoSlot && Installed(d, slot, image, crc, version, attempts)
    ensures |image| <= |d.Slot(slot)| && d.Slot(slot)[..|image|] == image
  {}
}
