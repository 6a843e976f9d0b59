/** The bootloader engine as it runs: it keeps its state in place, works on the flash through the storage driver, and
    does exactly what DeviceModel says. */
module Engine {
  import opened Bytes
  import opened Crc32
  import opened Protocol
  import opened Metadata
  import opened DeviceModel
  import F = FlashStorage
  import MetaStore
  import Transfer

  const FLASH_BASE := 0x0800_0000
  const BANK_PAGES := 256
  const META_OFFSET := 128 * 1024
  const META_SIZE := 8 * 1024
  const SLOT_A_OFFSET := META_OFFSET + META_SIZE
  const SLOT_B_OFFSET := 512 * 1024
  const VERIFY_CHUNK := 256

  /** A partition of the device's flash, as main configures it. */
  function Partition(offset: nat, size: nat): F.Region {
    F.Region(FLASH_BASE + offset, size, PAGE_SIZE, FLASH_BASE, BANK_PAGES * PAGE_SIZE, 1, 2)
  }

  function SlotRegion(slot: SlotId): F.Region
    requires slot != NoSlot
  {
    if slot == A then Partition(SLOT_A_OFFSET, SLOT_SIZE) else Partition(SLOT_B_OFFSET, SLOT_SIZE)
  }

  function MetaRegion(): F.Region { Partition(META_OFFSET, META_SIZE) }

  ghost predicate Device1MB(flash: F.Flash) {
    flash.Valid() && flash.base == FLASH_BASE && flash.pageSize == PAGE_SIZE && flash.bankPages == BANK_PAGES
      && flash.twoBanks
  }

  lemma PartitionsFit(flash: F.Flash)
    requires Device1MB(flash)
    ensures F.Fits(SlotRegion(A), flash) && F.Fits(SlotRegion(B), flash)
    ensures F.Fits(MetaRegion(), flash) && MetaStore.KeepsRecord(MetaRegion(), flash)
    ensures F.At(SlotRegion(A), flash, 0) == SLOT_A_OFFSET && F.At(SlotRegion(B), flash, 0) == SLOT_B_OFFSET
    ensures F.At(MetaRegion(), flash, 0) == META_OFFSET
    ensures flash.mem.Length == 1024 * 1024
  {}

  /** A change inside one range of memory leaves a range apart from it alone. */
  lemma Apart(before: seq<byte>, after: seq<byte>, lo: nat, hi: nat, from: nat, to: nat)
    requires F.SameOutside(before, after, lo, hi) && from <= to <= |before| && (to <= lo || hi <= from)
    ensures before[from..to] == after[from..to]
  {}

  function SlotOffset(slot: SlotId): nat
    requires slot != NoSlot
  {
    if slot == A then SLOT_A_OFFSET else SLOT_B_OFFSET
  }

  /** Metadata writes leave both slots alone. */
  lemma SlotsKept(before: seq<byte>, after: seq<byte>)
    requires |before| == 1024 * 1024 && F.SameOutside(before, after, META_OFFSET, META_OFFSET + META_SIZE)
    ensures before[SLOT_A_OFFSET..SLOT_A_OFFSET + SLOT_SIZE] == after[SLOT_A_OFFSET..SLOT_A_OFFSET + SLOT_SIZE]
    ensures before[SLOT_B_OFFSET..SLOT_B_OFFSET + SLOT_SIZE] == after[SLOT_B_OFFSET..SLOT_B_OFFSET + SLOT_SIZE]
  {
    Apart(before, after, META_OFFSET, META_OFFSET + META_SIZE, SLOT_A_OFFSET, SLOT_A_OFFSET + SLOT_SIZE);
    Apart(before, after, META_OFFSET, META_OFFSET + META_SIZE, SLOT_B_OFFSET, SLOT_B_OFFSET + SLOT_SIZE);
  }

  /** Work on one slot leaves the other slot and the metadata alone. */
  lemma OthersKept(slot: SlotId, before: seq<byte>, after: seq<byte>)
    requires slot != NoSlot && |before| == 1024 * 1024
    requires F.SameOutside(before, after, SlotOffset(slot), SlotOffset(slot) + SLOT_SIZE)
    ensures before[META_OFFSET..META_OFFSET + META_SIZE] == after[META_OFFSET..META_OFFSET + META_SIZE]
    ensures var o := SlotOffset(Other(slot)); before[o..o + SLOT_SIZE] == after[o..o + SLOT_SIZE]
  {
    var lo, o := SlotOffset(slot), SlotOffset(Other(slot));
    Apart(before, after, lo, lo + SLOT_SIZE, META_OFFSET, META_OFFSET + META_SIZE);
    Apart(before, after, lo, lo + SLOT_SIZE, o, o + SLOT_SIZE);
  }

  lemma EraseMatches(before: seq<byte>, after: seq<byte>, size: nat, ok: bool)
    requires |before| == SLOT_SIZE == |after| && 0 < size <= SLOT_SIZE
    requires F.SameOutside(before, after, 0, F.AlignUp(size, PAGE_SIZE))
    requires ok ==> F.AllErased(after, 0, F.AlignUp(size, PAGE_SIZE))
    ensures F.AlignUp(size, PAGE_SIZE) <= SLOT_SIZE
    ensures var fate := if ok then Done else Cut(after[..F.AlignUp(size, PAGE_SIZE)]);
            EraseSlot(before, size, fate) == SlotWrite(after, ok)
  {
    F.AlignUpIsTimes(size, PAGE_SIZE);
    var n := F.AlignUp(size, PAGE_SIZE);
    assert n <= SLOT_SIZE;
    assert after == Splice(before, 0, after[..n]);
    if ok {
      assert after[..n] == Blank(n);
    }
  }

  lemma WriteMatches(before: seq<byte>, after: seq<byte>, offset: nat, data: seq<byte>, ok: bool)
    requires |before| == SLOT_SIZE == |after| && data != []
    requires offset + F.AlignUp(|data|, F.DOUBLEWORD) <= SLOT_SIZE && offset % F.DOUBLEWORD == 0
    requires F.SameOutside(before, after, offset, offset + F.AlignUp(|data|, F.DOUBLEWORD))
    requires ok ==> F.Holds(after, offset, F.Padded(data))
    ensures var fate := if ok then Done else Cut(after[offset..offset + F.AlignUp(|data|, F.DOUBLEWORD)]);
            WriteSlot(before, offset, data, fate) == SlotWrite(after, ok)
  {
    var n := F.AlignUp(|data|, F.DOUBLEWORD);
    assert |F.Padded(data)| == n;
    hide F.AlignUp, F.Padded;
    assert after == Splice(before, offset, after[offset..offset + n]);
    if ok {
      assert after[offset..offset + n] == F.Padded(data);
    }
  }

  class BootEngine {
    const flash: F.Flash
    var state: EngineState
    var session: Session
    var target: SlotId
    var ctrl: Record
    /** Everything handed to the transport. */
    var sent: seq<Message>

    ghost predicate Valid() {
      Device1MB(flash)
    }

    /** bld_engine_init: nothing of a session survives a restart. */
    constructor (flash: F.Flash)
      requires Device1MB(flash)
      ensures Valid() && this.flash == flash && sent == []
      ensures state == Idle && session == NO_SESSION && target == NoSlot && ctrl == LoadOrDefault(StoredRecord())
    {
      this.flash := flash;
      state, session, target, ctrl, sent := Idle, NO_SESSION, NoSlot, DEFAULT_RECORD, [];
      new;
      var ok := RefreshBootControl();
    }

    ghost function SlotContent(slot: SlotId): (s: seq<byte>)
      requires Valid() && slot != NoSlot
      reads flash.mem
      ensures |s| == SLOT_SIZE
    {
      PartitionsFit(flash);
      F.Content(SlotRegion(slot), flash)
    }

    ghost function StoredRecord(): Option<Record>
      requires Valid()
      reads flash.mem
    {
      PartitionsFit(flash);
      MetaStore.Stored(MetaRegion(), flash)
    }

    ghost function View(): Device
      requires Valid()
      reads this, flash.mem
    {
      Device(state, session, target, ctrl, SlotContent(A), SlotContent(B), StoredRecord())
    }

    /** What every handler promises: the outcome of its model, and a tidy flash. */
    twostate predicate Did(o: Outcome, jump: SlotId)
      requires Valid()
      reads this, flash, flash.mem
    {
      && View() == o.device && sent == old(sent) + o.sent && jump == o.jump
      && flash.depth == old(flash.depth)
    }

    method RefreshBootControl() returns (ok: bool)
      requires Valid()
      modifies this`ctrl
      ensures View() == old(View()).Refreshed() && (ok <==> StoredRecord().Some?)
    {
      PartitionsFit(flash);
      hide F.Fits, F.Content, F.At, MetaStore.Stored;
      var m := MetaStore.RecordRead(flash, MetaRegion());
      ok := m.Some?;
      ctrl := if ok then m.value else DEFAULT_RECORD;
    }

    method ResetSession()
      requires Valid()
      modifies this`session, this`target
      ensures View() == old(View()).Reset()
    {
      session := NO_SESSION;
      target := NoSlot;
    }

    method SendStatus(code: Code, detail: Detail)
      modifies this`sent
      ensures sent == old(sent) + [Status(code, state, detail)]
    {
      sent := sent + [Status(code, state, detail)];
    }

    /** Reads the image in chunks of at most 256 bytes and chains the checksum through them. */
    method VerifySlotImage(slot: SlotId, imageSize: nat, imageCrc: bv32) returns (ok: bool)
      requires Valid()
      ensures ok <==> Verifies(View(), slot, imageSize, imageCrc)
    {
      if slot == NoSlot {
        return false;
      }
      if imageSize == 0 || imageCrc == 0 {
        return false;
      }
      PartitionsFit(flash);
      SlotRegionSize(slot);
      hide Crc, F.Fits, F.Content, F.At, SlotRegion, Partition;
      var read, crc := ReadChecksum(flash, SlotRegion(slot), imageSize);
      return read && crc == imageCrc;
    }
  
    // ---- metadata ----

    method MarkSlotBad(slot: SlotId) returns (ghost fate: MetaStore.Fate)
      requires Valid()
      modifies this`ctrl, flash`depth, flash`overwrites, flash.mem
      ensures View() == AfterMarkBad(old(View()), slot, fate) && (flash.reliable ==> fate == MetaStore.Written)
      ensures flash.depth == old(flash.depth) && flash.overwrites == old(flash.overwrites)
    {
      PartitionsFit(flash);
      ghost var before := flash.mem[..];
      hide F.Fits, F.At, MetaStore.Stored;
      var ok;
      ok, fate := MetaStore.DoMarkBad(flash, MetaRegion(), slot);
      SlotsKept(before, flash.mem[..]);
      var read := RefreshBootControl();
    }

    method DecrementAttempts() returns (ok: bool, ghost fate: MetaStore.Fate)
      requires Valid()
      modifies flash`depth, flash`overwrites, flash.mem
      ensures var change := Metadata.DecrementAttempts(old(StoredRecord()));
              && View() == old(View()).(meta := MetaStore.AfterOperation(old(StoredRecord()), change, fate))
              && (ok <==> MetaStore.Succeeds(change, fate)) && (flash.reliable ==> fate == MetaStore.Written)
      ensures flash.depth == old(flash.depth) && flash.overwrites == old(flash.overwrites)
    {
      PartitionsFit(flash);
      ghost var before := flash.mem[..];
      hide F.Fits, F.At, MetaStore.Stored;
      ok, fate := MetaStore.DoDecrement(flash, MetaRegion());
      SlotsKept(before, flash.mem[..]);
    }

    method SetPending(slot: SlotId, version: bv32, size: u32, crc: bv32) returns (ok: bool, ghost fate: MetaStore.Fate)
      requires Valid()
      modifies flash`depth, flash`overwrites, flash.mem
      ensures var change := Metadata.SetPending(old(StoredRecord()), slot, version, size, crc, MAX_BOOT_ATTEMPTS);
              && View() == old(View()).(meta := MetaStore.AfterOperation(old(StoredRecord()), change, fate))
              && (ok <==> MetaStore.Succeeds(change, fate)) && (flash.reliable ==> fate == MetaStore.Written)
      ensures flash.depth == old(flash.depth) && flash.overwrites == old(flash.overwrites)
    {
      PartitionsFit(flash);
      ghost var before := flash.mem[..];
      hide F.Fits, F.At, MetaStore.Stored;
      ok, fate := MetaStore.DoSetPending(flash, MetaRegion(), slot, version, size, crc, MAX_BOOT_ATTEMPTS);
      SlotsKept(before, flash.mem[..]);
    }

    // ---- slots ----

    method EraseTarget(size: nat) returns (ok: bool, ghost fate: SlotFate)
      requires Valid() && target != NoSlot && 0 < size <= SLOT_SIZE
      modifies flash`depth, flash.mem
      ensures var w := EraseSlot(old(SlotContent(target)), size, fate);
              View() == old(View()).WithSlot(target, w.content) && ok == w.ok
      ensures flash.depth == old(flash.depth) && (flash.reliable ==> fate == Done)
    {
      PartitionsFit(flash);
      SlotRegionAt(flash, target);
      ghost var before, content := flash.mem[..], SlotContent(target);
      hide F.Fits, F.At, F.AlignUp, MetaStore.Stored, SlotRegion, SlotOffset;
      ok := F.Erase(flash, SlotRegion(target), 0, size);
      OthersKept(target, before, flash.mem[..]);
      EraseMatches(content, SlotContent(target), size, ok);
      fate := if ok then Done else Cut(SlotContent(target)[..F.AlignUp(size, PAGE_SIZE)]);
    }
  
    method WriteTarget(data: seq<byte>) returns (ok: bool, ghost fate: SlotFate)
      requires Valid() && target != NoSlot
      modifies flash`depth, flash`overwrites, flash.mem
      ensures var w := WriteSlot(old(SlotContent(target)), session.receivedSize, data, fate);
              View() == old(View()).WithSlot(target, w.content) && ok == w.ok
      ensures flash.depth == old(flash.depth)
      ensures var at, n := session.receivedSize, F.AlignUp(|data|, F.DOUBLEWORD);
              F.AllErased(old(SlotContent(target)), at, at + n) || (data == [] || at % F.DOUBLEWORD != 0) ==>
                flash.overwrites == old(flash.overwrites)
                && (flash.reliable ==> fate == Done)
    {
      PartitionsFit(flash);
      SlotRegionAt(flash, target);
      ghost var before, content, at := flash.mem[..], SlotContent(target), session.receivedSize;
      F.PaddingFits(|data|, |data|);
      if at % F.DOUBLEWORD == 0 {
        WriteRoom(at, |data|);
      }
      hide F.Fits, F.At, F.AlignUp, F.AllErased, F.Padded, F.Holds, MetaStore.Stored, SlotRegion, SlotOffset;
      ok := F.Write(flash, SlotRegion(target), session.receivedSize, data);
      OthersKept(target, before, flash.mem[..]);
      fate := Done;
      if data != [] && at + F.AlignUp(|data|, F.DOUBLEWORD) <= SLOT_SIZE && at % F.DOUBLEWORD == 0 {
        WriteMatches(content, SlotContent(target), at, data, ok);
        fate := if ok then Done else Cut(SlotContent(target)[at..at + F.AlignUp(|data|, F.DOUBLEWORD)]);
      }
    }

    // ---- the boot decision ----

    /** Tries the pending slot. */
    method TryPendingSlot() returns (jump: SlotId, ghost fates: Fates)
      requires Valid() && StoredRecord() == Some(ctrl)
      modifies this`ctrl, this`sent, flash`depth, flash`overwrites, flash.mem
      ensures Did(TryPending(old(View()), fates), jump) && flash.overwrites == old(flash.overwrites)
      ensures flash.reliable ==> fates == SMOOTH
    {
      hide Verifies, Bootable, Metadata.DecrementAttempts, AfterMarkBad, SlotContent, StoredRecord;
      var slot := ctrl.pending;
      fates := SMOOTH;
      jump := NoSlot;
      if slot == NoSlot {
        return;
      }
      var verified := false;
      if Bootable(ctrl, slot) && ctrl.Info(slot).attempts != 0 {
        verified := VerifySlotImage(slot, ctrl.Info(slot).size, ctrl.Info(slot).crc);
      }
      if !verified {
        ghost var bad := MarkSlotBad(slot);
        fates := fates.(badPending := bad);
        return;
      }
      var counted;
      ghost var decrement;
      counted, decrement := DecrementAttempts();
      fates := fates.(decrement := decrement);
      if counted {
        SendStatus(Ok, Number(SlotNumber(slot)));
        return slot, fates;
      }
      ghost var bad := MarkSlotBad(slot);
      fates := fates.(badPending := bad);
    }

    /** bld_engine_boot_decide_and_jump: the slot jumped to, or NoSlot where the engine stays in the bootloader. */
    method BootDecideAndJump() returns (jump: SlotId, ghost fates: Fates)
      requires Valid()
      modifies this`ctrl, this`sent, flash`depth, flash`overwrites, flash.mem
      ensures Did(BootDecide(old(View()), fates), jump) && flash.overwrites == old(flash.overwrites)
      ensures flash.reliable ==> fates == SMOOTH
    {
      hide Verifies, TryPending, SlotContent, StoredRecord;
      fates := SMOOTH;
      var loaded := RefreshBootControl();
      if !loaded {
        return NoSlot, fates;
      }
      ghost var d := View();
      jump, fates := TryPendingSlot();
      if jump != NoSlot {
        return;
      }
      TryPendingSilent(d, fates);
      var slot := ctrl.confirmed;
      if slot != NoSlot {
        var verified := VerifySlotImage(slot, ctrl.Info(slot).size, ctrl.Info(slot).crc);
        if verified {
          SendStatus(Ok, Number(SlotNumber(slot)));
          return slot, fates;
        }
        ghost var bad := MarkSlotBad(slot);
        TryPendingIgnores(d, fates, bad);
        fates := fates.(badConfirmed := bad);
      }
      SendStatus(BootErr, Number(0));
    }
  
    // ---- frames ----

    method HandleEnd() returns (ghost fates: Fates)
      requires Valid() && state == WaitEnd
      modifies this, flash`depth, flash`overwrites, flash.mem
      ensures Did(DeviceModel.HandleEnd(old(View()), fates), NoSlot) && flash.overwrites == old(flash.overwrites)
      ensures flash.reliable ==> fates == SMOOTH
    {
      hide Verifies, SlotContent, StoredRecord, Metadata.SetPending;
      fates := SMOOTH;
      if session.receivedSize != session.imageSize {
        state := Error;
        SendStatus(BadFrame, Number(session.receivedSize));
        return;
      }
      var verified := VerifySlotImage(target, session.imageSize, session.imageCrc);
      if !verified {
        state := Error;
        SendStatus(BadCrc, Checksum(session.imageCrc));
        return;
      }
      var stored;
      ghost var fate;
      stored, fate := SetPending(target, session.imageVersion, session.imageSize, session.imageCrc);
      fates := fates.(setPending := fate);
      if !stored {
        state := Error;
        SendStatus(FlashErr, Number(0));
        return;
      }
      var read := RefreshBootControl();
      ResetSession();
      state := Idle;
      SendStatus(Ok, Number(0));
    }

    method HandleCmd(cmd: byte) returns (jump: SlotId, ghost fates: Fates)
      requires Valid()
      modifies this, flash`depth, flash`overwrites, flash.mem
      ensures Did(DeviceModel.HandleCmd(old(View()), cmd, fates), jump) && flash.overwrites == old(flash.overwrites)
      ensures flash.reliable ==> fates == SMOOTH
    {
      hide SlotContent, StoredRecord, BootDecide, DeviceModel.HandleEnd, ChooseTarget;
      fates := SMOOTH;
      jump := NoSlot;
      if cmd == CMD_ABORT {
        ResetSession();
        state := Idle;
        SendStatus(Ok, Number(0));
        return;
      }
      if state == Idle {
        if cmd == CMD_META {
          var read := RefreshBootControl();
          sent := sent + [Meta(ctrl)];
          return;
        }
        if cmd == CMD_START {
          var read := RefreshBootControl();
          ResetSession();
          target := ChooseTarget(ctrl);
          state := WaitHeader;
          SendStatus(Ok, Number(SlotNumber(target)));
          return;
        }
        if cmd == CMD_QUERY {
          SendStatus(Ok, Number(0));
          return;
        }
        if cmd == CMD_BOOT {
          jump, fates := BootDecideAndJump();
          if jump == NoSlot {
            SendStatus(BootErr, Number(0));
          }
          return;
        }
      }
      if state == WaitEnd && cmd == CMD_END {
        fates := HandleEnd();
        return;
      }
      SendStatus(BadState, Number(cmd));
    }

    method HandleHeader(size: u32, crc: bv32, version: bv32) returns (ghost fates: Fates)
      requires Valid()
      modifies this, flash`depth, flash.mem
      ensures Did(DeviceModel.HandleHeader(old(View()), size, crc, version, fates), NoSlot)
      ensures flash.reliable ==> fates == SMOOTH
    {
      hide SlotContent, StoredRecord, EraseSlot;
      fates := SMOOTH;
      if state != WaitHeader {
        SendStatus(BadState, Number(StateNumber(state)));
        return;
      }
      if target == NoSlot {
        state := Error;
        SendStatus(FlashErr, Number(0));
        return;
      }
      if size == 0 || size > SLOT_SIZE {
        state := Idle;
        ResetSession();
        SendStatus(TooLarge, Number(size));
        return;
      }
      var erased;
      ghost var fate;
      erased, fate := EraseTarget(size);
      fates := fates.(slot := fate);
      if !erased {
        state := Error;
        SendStatus(FlashErr, Number(0));
        return;
      }
      session := Session(0, 0, size, crc, version);
      state := RecvData;
      SendStatus(Ok, Number(0));
    }

    /** Within a transfer the chunk's cells are erased, so nothing is programmed over. */
    method StoreChunk(chunk: seq<byte>) returns (ok: bool, ghost fate: SlotFate)
      requires Valid() && state == RecvData && target != NoSlot && session.receivedSize + |chunk| <= session.imageSize
      modifies flash`depth, flash`overwrites, flash.mem
      ensures var w := WriteSlot(old(SlotContent(target)), session.receivedSize, chunk, fate);
              View() == old(View()).WithSlot(target, w.content) && ok == w.ok
      ensures flash.depth == old(flash.depth)
      ensures (exists log :: Transfer.TransferOk(old(View()), log)) ==>
                flash.overwrites == old(flash.overwrites) && (flash.reliable ==> fate == Done)
    {
      ghost var d := View();
      if (exists log :: Transfer.TransferOk(d, log)) && session.receivedSize % F.DOUBLEWORD == 0 {
        ghost var log :| Transfer.TransferOk(d, log);
        Transfer.ChunkCellsErased(d, log, chunk);
      }
      hide SlotContent, StoredRecord, WriteSlot, Transfer.TransferOk, F.AllErased, F.AlignUp;
      ok, fate := WriteTarget(chunk);
    }

    method AcceptChunk(chunk: seq<byte>) returns (ghost fates: Fates)
      requires Valid() && state == RecvData
      modifies this, flash`depth, flash`overwrites, flash.mem
      ensures Did(DeviceModel.AcceptChunk(old(View()), chunk, fates), NoSlot)
      ensures (exists log :: Transfer.TransferOk(old(View()), log)) ==>
                flash.overwrites == old(flash.overwrites) && (flash.reliable ==> fates == SMOOTH)
    {
      hide SlotContent, StoredRecord, WriteSlot, Transfer.TransferOk;
      fates := SMOOTH;
      if session.receivedSize + |chunk| > session.imageSize {
        state := Error;
        SendStatus(BadFrame, Number(session.receivedSize + |chunk|));
        return;
      }
      if target == NoSlot {
        state := Error;
        SendStatus(FlashErr, Number(0));
        return;
      }
      var written;
      ghost var fate;
      written, fate := StoreChunk(chunk);
      fates := fates.(slot := fate);
      if !written {
        state := Error;
        SendStatus(FlashErr, Number(session.receivedSize));
        return;
      }
      var received := session.receivedSize + |chunk|;
      session := session.(receivedSize := received, expectedSeq := (session.expectedSeq + 1) % U32_MODULUS);
      if session.receivedSize >= session.imageSize {
        state := WaitEnd;
      }
      SendStatus(Ok, Number(0));
    }

    method HandleData(buf: array<byte>, len: nat) returns (ghost fates: Fates)
      requires Valid() && buf.Length == MAX_FRAME && len <= MAX_FRAME && buf != flash.mem
      modifies this, flash`depth, flash`overwrites, flash.mem
      ensures Did(DeviceModel.HandleData(old(View()), old(buf[..]), len, fates), NoSlot)
      ensures (exists log :: Transfer.TransferOk(old(View()), log)) ==>
                flash.overwrites == old(flash.overwrites) && (flash.reliable ==> fates == SMOOTH)
    {
      hide SlotContent, StoredRecord, DeviceModel.AcceptChunk, Transfer.TransferOk, FromLe16, FromLeU32;
      fates := SMOOTH;
      ghost var frame := buf[..];
      var payload, chunkLen, seqNo := FromLe16(buf[2..4]), FromLe16(buf[8..10]), FromLeU32(buf[4..8]);
      assert buf[2..4] == frame[2..4] && buf[8..10] == frame[8..10] && buf[4..8] == frame[4..8];
      if state != RecvData {
        SendStatus(BadState, Number(StateNumber(state)));
        return;
      }
      if payload < DATA_PREFIX {
        SendStatus(BadFrame, Number(payload));
        return;
      }
      if chunkLen + DATA_PREFIX != payload {
        SendStatus(BadFrame, Number(chunkLen));
        return;
      }
      if len != payload + OVERHEAD {
        SendStatus(BadFrame, Number(len));
        return;
      }
      if seqNo != session.expectedSeq {
        SendStatus(SeqErr, Number(session.expectedSeq));
        return;
      }
      assert buf[10..10 + chunkLen] == frame[10..10 + chunkLen];
      fates := AcceptChunk(buf[10..10 + chunkLen]);
    }

    /** bld_engine_poll, once the transport has put a frame of len bytes into buf. */
    method Poll(buf: array<byte>, len: nat) returns (jump: SlotId, ghost fates: Fates)
      requires Valid() && buf.Length == MAX_FRAME && 0 < len <= MAX_FRAME && buf != flash.mem
      modifies this, flash`depth, flash`overwrites, flash.mem
      ensures Did(PollFrame(old(View()), old(buf[..]), len, fates), jump)
      ensures (exists log :: Transfer.TransferOk(old(View()), log)) ==>
                flash.overwrites == old(flash.overwrites) && (flash.reliable ==> fates == SMOOTH)
    {
      hide SlotContent, StoredRecord, CrcOk, DeviceModel.HandleCmd, DeviceModel.HandleHeader, DeviceModel.HandleData,
           Transfer.TransferOk, FromLe32, FromLeU32;
      fates := SMOOTH;
      jump := NoSlot;
      var frame := buf[..len];
      assert frame == buf[..][..len];
      if !CommonOk(frame) {
        SendStatus(BadFrame, Number(len));
        return;
      }
      if !CrcOk(frame) {
        SendStatus(BadCrc, Number(len));
        return;
      }
      var kind := frame[1];
      if kind == PKT_CMD {
        if len != 13 {
          SendStatus(BadFrame, Number(len));
          return;
        }
        jump, fates := HandleCmd(frame[4]);
        return;
      }
      if kind == PKT_HEADER {
        if len != 21 {
          SendStatus(BadFrame, Number(len));
          return;
        }
        fates := HandleHeader(FromLeU32(frame[4..8]), FromLe32(frame[8..12]), FromLe32(frame[12..16]));
        return;
      }
      if kind == PKT_DATA {
        fates := HandleData(buf, len);
        return;
      }
      SendStatus(BadFrame, Number(kind));
    }
  }

  /** Trying the pending slot does not depend on how the confirmed slot is marked. */
  lemma TryPendingIgnores(d: Device, fates: Fates, bad: MetaStore.Fate)
    ensures TryPending(d, fates) == TryPending(d, fates.(badConfirmed := bad))
  {}

  lemma TryPendingSilent(d: Device, fates: Fates)
    ensures TryPending(d, fates).jump == NoSlot ==> TryPending(d, fates).sent == []
  {}

  lemma WriteRoom(at: nat, len: nat)
    requires at % F.DOUBLEWORD == 0
    ensures at + F.AlignUp(len, F.DOUBLEWORD) <= SLOT_SIZE <==> at + len <= SLOT_SIZE
  {}

  lemma SlotRegionAt(flash: F.Flash, slot: SlotId)
    requires Device1MB(flash) && slot != NoSlot
    ensures F.Fits(SlotRegion(slot), flash) && F.At(SlotRegion(slot), flash, 0) == SlotOffset(slot)
    ensures SlotRegion(slot).size == SLOT_SIZE && SlotRegion(slot).pageSize == PAGE_SIZE
  {
    PartitionsFit(flash);
  }

  /** The checksum of the first size bytes of a region, unless the region is smaller. */
  method ReadChecksum(flash: F.Flash, r: F.Region, size: nat) returns (ok: bool, crc: bv32)
    requires F.Fits(r, flash)
    ensures ok <==> size <= r.size
    ensures ok ==> crc == Crc(F.Content(r, flash)[..size], 0)
  {
    ghost var image := F.Content(r, flash);
    var remaining, offset := size, 0;
    crc := 0;
    EmptyCrc();
    assert image[..0] == [];
    hide Crc, F.Fits, F.Content;
    while remaining > 0
      invariant 0 <= remaining && remaining + offset == size && offset <= r.size
      invariant crc == Crc(image[..offset], 0)
    {
      var readSize := if remaining > VERIFY_CHUNK then VERIFY_CHUNK else remaining;
      ok, crc := ChainChunk(flash, r, offset, readSize, crc);
      if !ok {
        return;
      }
      remaining := remaining - readSize;
      offset := offset + readSize;
    }
    ok := true;
  }

  /** Continues a checksum of the region's first offset bytes over the next len bytes. */
  method ChainChunk(flash: F.Flash, r: F.Region, offset: nat, len: nat, seed: bv32) returns (ok: bool, crc: bv32)
    requires F.Fits(r, flash) && offset <= r.size && len > 0
    requires seed == Crc(F.Content(r, flash)[..offset], 0)
    ensures ok <==> offset + len <= r.size
    ensures ok ==> crc == Crc(F.Content(r, flash)[..offset + len], 0)
  {
    hide Crc, F.Fits, F.Content;
    var chunk;
    ok, chunk := F.Read(flash, r, offset, len);
    crc := seed;
    if ok {
      ghost var image := F.Content(r, flash);
      CrcChains(image[..offset], chunk, 0);
      assert image[..offset + len] == image[..offset] + chunk;
      crc := DeviceCrc(chunk, seed);
    }
  }

  lemma SlotRegionSize(slot: SlotId)
    requires slot != NoSlot
    ensures SlotRegion(slot).size == SLOT_SIZE
  {}

  lemma EmptyCrc()
    ensures Crc([], 0) == 0
  {
    NotNot(0);
  }
}
