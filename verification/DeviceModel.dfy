/** What the bootloader engine does to its state, its slots and its metadata, as functions on values. Every flash
    operation's outcome is an argument, so that one function covers success, failure and power cuts. */
module DeviceModel {
  import opened Bytes
  import opened Crc32
  import opened Protocol
  import opened Metadata
  import FlashStorage
  import MetaStore

  const SLOT_SIZE := 376 * 1024
  const PAGE_SIZE := 2048
  const MAX_BOOT_ATTEMPTS: u8 := 3

  datatype EngineState = Idle | WaitHeader | RecvData | WaitEnd | Error

  datatype Session = Session(expectedSeq: u32, receivedSize: u32, imageSize: u32, imageCrc: bv32, imageVersion: bv32)

  const NO_SESSION := Session(0, 0, 0, 0, 0)

  datatype Device = Device(state: EngineState, session: Session, target: SlotId, ctrl: Record,
                           a: seq<byte>, b: seq<byte>, meta: Option<Record>) {
    function Slot(slot: SlotId): seq<byte>
      requires slot != NoSlot
    {
      if slot == A then a else b
    }

    function WithSlot(slot: SlotId, s: seq<byte>): Device
      requires slot != NoSlot
    {
      if slot == A then this.(a := s) else this.(b := s)
    }

    function Refreshed(): Device {
      this.(ctrl := LoadOrDefault(meta))
    }

    function Reset(): Device {
      this.(session := NO_SESSION, target := NoSlot)
    }

    predicate WellFormed() {
      |a| == SLOT_SIZE && |b| == SLOT_SIZE
    }
  }

  datatype Code = Ok | BadFrame | BadCrc | TooLarge | BadState | FlashErr | SeqErr | BootErr

  datatype Detail = Number(n: int) | Checksum(w: bv32)

  datatype Message = Status(code: Code, state: EngineState, detail: Detail) | Meta(ctrl: Record)

  /** The device afterwards, the messages sent, and the slot jumped to, if any. */
  datatype Outcome = Outcome(device: Device, sent: seq<Message>, jump: SlotId)

  function Reply(d: Device, code: Code, n: int): Outcome {
    Outcome(d, [Status(code, d.state, Number(n))], NoSlot)
  }

  // ---- flash operations on a slot ----

  /** A completed slot operation, or one that failed or was cut and left `residue` in the cells it was working on. */
  datatype SlotFate = Done | Cut(residue: seq<byte>)

  datatype Fates = Fates(slot: SlotFate, setPending: MetaStore.Fate, decrement: MetaStore.Fate,
                         badPending: MetaStore.Fate, badConfirmed: MetaStore.Fate)

  /** Every operation completes. */
  const SMOOTH := Fates(Done, MetaStore.Written, MetaStore.Written, MetaStore.Written, MetaStore.Written)

  datatype SlotWrite = SlotWrite(content: seq<byte>, ok: bool)

  function Splice(s: seq<byte>, at: nat, piece: seq<byte>): (t: seq<byte>)
    requires at + |piece| <= |s|
    ensures |t| == |s|
  {
    s[..at] + piece + s[at + |piece|..]
  }

  function Blank(n: nat): seq<byte> { seq(n, _ => FlashStorage.ERASED) }

  function EraseSlot(s: seq<byte>, size: nat, fate: SlotFate): (w: SlotWrite)
    ensures |w.content| == |s|
  {
    var n := FlashStorage.AlignUp(size, PAGE_SIZE);
    if size == 0 || n > |s| then SlotWrite(s, false)
    else match fate
      case Done => SlotWrite(Splice(s, 0, Blank(n)), true)
      case Cut(residue) => SlotWrite(if |residue| == n then Splice(s, 0, residue) else s, false)
  }

  function WriteSlot(s: seq<byte>, offset: nat, data: seq<byte>, fate: SlotFate): (w: SlotWrite)
    ensures |w.content| == |s|
  {
    var n := FlashStorage.AlignUp(|data|, FlashStorage.DOUBLEWORD);
    if data == [] || offset + n > |s| || offset % FlashStorage.DOUBLEWORD != 0 then SlotWrite(s, false)
    else match fate
      case Done => SlotWrite(Splice(s, offset, FlashStorage.Padded(data)), true)
      case Cut(residue) => SlotWrite(if |residue| == n then Splice(s, offset, residue) else s, false)
  }

  // ---- slots ----

  predicate ImageOk(s: seq<byte>, size: nat, crc: bv32) {
    0 < size <= |s| && crc != 0 && Crc(s[..size], 0) == crc
  }

  predicate Verifies(d: Device, slot: SlotId, size: nat, crc: bv32) {
    slot != NoSlot && ImageOk(d.Slot(slot), size, crc)
  }

  predicate Bootable(ctrl: Record, slot: SlotId) {
    slot != NoSlot && ctrl.Info(slot).state in {Confirmed, Valid, Pending}
  }

  function ChooseTarget(ctrl: Record): SlotId {
    if ctrl.active == A then B
    else if ctrl.active == B then A
    else if ctrl.confirmed == A then B
    else if ctrl.confirmed == B then A
    else A
  }

  function SlotNumber(slot: SlotId): int { SlotIdByte(slot) as int }

  // ---- the boot decision ----

  function AfterMarkBad(d: Device, slot: SlotId, fate: MetaStore.Fate): Device {
    d.(meta := MetaStore.AfterOperation(d.meta, MarkBad(d.meta, slot), fate)).Refreshed()
  }

  /** Trying the pending slot: a jump, or the slot marked bad. */
  function TryPending(d: Device, fates: Fates): Outcome {
    var slot := d.ctrl.pending;
    if slot == NoSlot then Outcome(d, [], NoSlot)
    else if !Bootable(d.ctrl, slot) || d.ctrl.Info(slot).attempts == 0
         || !Verifies(d, slot, d.ctrl.Info(slot).size, d.ctrl.Info(slot).crc)
    then Outcome(AfterMarkBad(d, slot, fates.badPending), [], NoSlot)
    else
      var change := DecrementAttempts(d.meta);
      var counted := d.(meta := MetaStore.AfterOperation(d.meta, change, fates.decrement));
      if MetaStore.Succeeds(change, fates.decrement)
      then Outcome(counted, [Status(Ok, d.state, Number(SlotNumber(slot)))], slot)
      else Outcome(AfterMarkBad(counted, slot, fates.badPending), [], NoSlot)
  }

  function TryConfirmed(d: Device, fates: Fates): Outcome {
    var slot := d.ctrl.confirmed;
    if slot != NoSlot && Verifies(d, slot, d.ctrl.Info(slot).size, d.ctrl.Info(slot).crc)
    then Outcome(d, [Status(Ok, d.state, Number(SlotNumber(slot)))], slot)
    else Reply(if slot == NoSlot then d else AfterMarkBad(d, slot, fates.badConfirmed), BootErr, 0)
  }

  function BootDecide(d: Device, fates: Fates): Outcome {
    var loaded := d.Refreshed();
    if d.meta.None? then Outcome(loaded, [], NoSlot) else
      var first := TryPending(loaded, fates);
      if first.jump != NoSlot then first else TryConfirmed(first.device, fates)
  }

  // ---- frame handlers ----

  function HandleCmd(d: Device, cmd: byte, fates: Fates): Outcome {
    if cmd == CMD_ABORT then Reply(d.Reset().(state := Idle), Ok, 0)
    else if d.state == Idle && cmd == CMD_META then Outcome(d.Refreshed(), [Meta(d.Refreshed().ctrl)], NoSlot)
    else if d.state == Idle && cmd == CMD_START then
      var target := ChooseTarget(d.Refreshed().ctrl);
      Reply(d.Refreshed().Reset().(target := target, state := WaitHeader), Ok, SlotNumber(target))
    else if d.state == Idle && cmd == CMD_QUERY then Reply(d, Ok, 0)
    else if d.state == Idle && cmd == CMD_BOOT then
      var decided := BootDecide(d, fates);
      if decided.jump != NoSlot then decided
      else decided.(sent := decided.sent + [Status(BootErr, decided.device.state, Number(0))])
    else if d.state == WaitEnd && cmd == CMD_END then HandleEnd(d, fates)
    else Reply(d, BadState, cmd)
  }

  function HandleEnd(d: Device, fates: Fates): Outcome {
    var s := d.session;
    if s.receivedSize != s.imageSize then Reply(d.(state := Error), BadFrame, s.receivedSize)
    else if !Verifies(d, d.target, s.imageSize, s.imageCrc) then
      Outcome(d.(state := Error), [Status(BadCrc, Error, Checksum(s.imageCrc))], NoSlot)
    else
      var change := SetPending(d.meta, d.target, s.imageVersion, s.imageSize, s.imageCrc, MAX_BOOT_ATTEMPTS);
      var stored := d.(meta := MetaStore.AfterOperation(d.meta, change, fates.setPending));
      if !MetaStore.Succeeds(change, fates.setPending) then Reply(stored.(state := Error), FlashErr, 0)
      else Reply(stored.Refreshed().Reset().(state := Idle), Ok, 0)
  }

  function StateNumber(s: EngineState): int {
    match s case Idle => 0 case WaitHeader => 1 case RecvData => 2 case WaitEnd => 3 case Error => 4
  }

  function HandleHeader(d: Device, size: u32, crc: bv32, version: bv32, fates: Fates): Outcome {
    if d.state != WaitHeader then Reply(d, BadState, StateNumber(d.state))
    else if d.target == NoSlot then Reply(d.(state := Error), FlashErr, 0)
    else if size == 0 || size > SLOT_SIZE then Reply(d.Reset().(state := Idle), TooLarge, size)
    else
      var erased := EraseSlot(d.Slot(d.target), size, fates.slot);
      var e := d.WithSlot(d.target, erased.content);
      if !erased.ok then Reply(e.(state := Error), FlashErr, 0)
      else Reply(e.(session := Session(0, 0, size, crc, version), state := RecvData), Ok, 0)
  }

  /** The checks on a DATA frame before its payload is looked at; Ok when they all pass. */
  function DataFault(d: Device, payload: u16, chunkLen: u16, len: nat, seqNo: u32): (Code, int) {
    if payload < DATA_PREFIX then (BadFrame, payload)
    else if chunkLen + DATA_PREFIX != payload then (BadFrame, chunkLen)
    else if len != payload + OVERHEAD then (BadFrame, len)
    else if seqNo != d.session.expectedSeq then (SeqErr, d.session.expectedSeq)
    else (Ok, 0)
  }

  function HandleData(d: Device, buf: seq<byte>, len: nat, fates: Fates): Outcome
    requires 10 <= |buf| && len <= |buf|
  {
    var payload, chunkLen, seqNo := FromLe16(buf[2..4]), FromLe16(buf[8..10]), FromLeU32(buf[4..8]);
    if d.state != RecvData then Reply(d, BadState, StateNumber(d.state))
    else
      var (code, n) := DataFault(d, payload, chunkLen, len, seqNo);
      if code != Ok then Reply(d, code, n)
      else AcceptChunk(d, buf[10..10 + chunkLen], fates)
  }

  function AcceptChunk(d: Device, chunk: seq<byte>, fates: Fates): Outcome {
    var s := d.session;
    if s.receivedSize + |chunk| > s.imageSize then Reply(d.(state := Error), BadFrame, s.receivedSize + |chunk|)
    else if d.target == NoSlot then Reply(d.(state := Error), FlashErr, 0)
    else
      var written := WriteSlot(d.Slot(d.target), s.receivedSize, chunk, fates.slot);
      var e := d.WithSlot(d.target, written.content);
      if !written.ok then Reply(e.(state := Error), FlashErr, s.receivedSize)
      else
        var received := s.receivedSize + |chunk|;
        Reply(e.(session := s.(receivedSize := received, expectedSeq := (s.expectedSeq + 1) % U32_MODULUS),
                 state := if received >= s.imageSize then WaitEnd else RecvData), Ok, 0)
  }

  /** One poll that found the frame buf[..len]. */
  function PollFrame(d: Device, buf: seq<byte>, len: nat, fates: Fates): Outcome
    requires |buf| == MAX_FRAME && 0 < len <= MAX_FRAME
  {
    var f := buf[..len];
    if !CommonOk(f) then Reply(d, BadFrame, len)
    else if !CrcOk(f) then Reply(d, BadCrc, len)
    else if f[1] == PKT_CMD then
      if len != 13 then Reply(d, BadFrame, len) else HandleCmd(d, f[4], fates)
    else if f[1] == PKT_HEADER then
      if len != 21 then Reply(d, BadFrame, len)
      else HandleHeader(d, FromLeU32(f[4..8]), FromLe32(f[8..12]), FromLe32(f[12..16]), fates)
    else if f[1] == PKT_DATA then HandleData(d, buf, len, fates)
    else Reply(d, BadFrame, f[1])
  }
}
