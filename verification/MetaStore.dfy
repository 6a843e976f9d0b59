/** The metadata record in flash: every operation loads it, changes it, erases its page and writes it back. */
module MetaStore {
  import opened Arithmetic
  import opened Bytes
  import opened FlashStorage
  import opened Metadata

  /** What became of one record write. Torn leaves neither the old nor the new record, as a cut between erase and write
      does; the others are all-or-nothing: written, failed with the old record kept, or written although a failure was
      reported. */
  datatype Fate = Written | Kept | Unreported | Torn(after: Option<Record>)

  function AfterWrite(before: Option<Record>, record: Record, fate: Fate): Option<Record> {
    match fate
    case Written => Some(record)
    case Kept => before
    case Unreported => Some(record)
    case Torn(after) => after
  }

  /** The fate of a write that failed, told by what is stored afterwards. */
  ghost function FailedFate(before: Option<Record>, record: Record, after: Option<Record>): (fate: Fate)
    ensures fate != Written && AfterWrite(before, record, fate) == after
    ensures fate.Torn? <==> after != before && after != Some(record)
  {
    if after == before then Kept else if after == Some(record) then Unreported else Torn(after)
  }

  /** What an operation leaves behind: it writes `change`, or touches nothing when it has none. */
  function AfterOperation(before: Option<Record>, change: Option<Record>, fate: Fate): Option<Record> {
    if change.Some? then AfterWrite(before, change.value, fate) else before
  }

  /** The write happened, whether or not it was reported so. */
  predicate TakesEffect(fate: Fate) {
    fate.Written? || fate.Unreported?
  }

  predicate Succeeds(change: Option<Record>, fate: Fate) {
    change.Some? && fate == Written
  }

  ghost predicate KeepsRecord(r: Region, flash: Flash) {
    Fits(r, flash) && r.size >= RECORD_SIZE
  }

  ghost function Stored(r: Region, flash: Flash): Option<Record>
    requires KeepsRecord(r, flash)
    reads flash.mem
  {
    Decode(Content(r, flash)[..RECORD_SIZE])
  }

  /** Only the metadata region changed, the lock is balanced, and only erased cells were programmed. */
  twostate predicate Tidy(r: Region, flash: Flash)
    requires Fits(r, flash)
    reads flash, flash.mem
  {
    flash.depth == old(flash.depth) && flash.overwrites == old(flash.overwrites) && OthersUntouched(r, flash)
  }

  method RecordRead(flash: Flash, r: Region) returns (m: Option<Record>)
    requires KeepsRecord(r, flash)
    ensures m == Stored(r, flash)
  {
    hide Fits, Decode, Content;
    var ok, bytes := Read(flash, r, 0, RECORD_SIZE);
    m := Decode(bytes);
  }

  method RecordWrite(flash: Flash, r: Region, record: Record) returns (ok: bool, ghost fate: Fate)
    requires KeepsRecord(r, flash)
    modifies flash`depth, flash`overwrites, flash.mem
    ensures Tidy(r, flash)
    ensures ok <==> fate == Written
    ensures Stored(r, flash) == AfterWrite(old(Stored(r, flash)), record, fate)
    ensures flash.reliable ==> ok
  {
    FirstPage(r, flash);
    hide Encode, Decode, Fits, Content, AlignUp, AllErased, Padded;
    ghost var before := Stored(r, flash);
    var tmp := Encode(record);
    ok := Erase(flash, r, 0, RECORD_SIZE);
    if !ok {
      return false, FailedFate(before, record, Stored(r, flash));
    }
    ErasedSplit(Content(r, flash), 0, AlignUp(RECORD_SIZE, DOUBLEWORD), AlignUp(RECORD_SIZE, r.pageSize));
    ok := Write(flash, r, 0, tmp);
    if !ok {
      return false, FailedFate(before, record, Stored(r, flash));
    }
    HoldsPadded(Content(r, flash), tmp);
    RecordRoundTrip(record);
    return true, Written;
  }

  lemma FirstPage(r: Region, flash: Flash)
    requires KeepsRecord(r, flash)
    ensures CanErase(r, 0, RECORD_SIZE) && CanWrite(r, 0, RECORD_SIZE)
    ensures 0 <= AlignUp(RECORD_SIZE, DOUBLEWORD) <= AlignUp(RECORD_SIZE, r.pageSize)
  {
    AlignUpIsTimes(RECORD_SIZE, r.pageSize);
    var n := AlignUp(RECORD_SIZE, r.pageSize);
    MultipleOfDoubleword(n, r.pageSize);
    PaddingFits(RECORD_SIZE, n);
    var zero := Factor(0, r.pageSize);
  }

  lemma HoldsPadded(s: seq<byte>, data: seq<byte>)
    requires FlashStorage.Holds(s, 0, Padded(data))
    ensures |data| <= |s| && s[..|data|] == data
  {
    assert forall i :: 0 <= i < |data| ==> Padded(data)[i] == data[i];
    forall i | 0 <= i < |data| ensures s[i] == data[i] {
      assert s[0 + i] == Padded(data)[i];
    }
  }

  method RecordLoadOrDefault(flash: Flash, r: Region) returns (record: Record)
    requires KeepsRecord(r, flash)
    ensures record == LoadOrDefault(Stored(r, flash))
  {
    var m := RecordRead(flash, r);
    record := if m.Some? then m.value else DEFAULT_RECORD;
  }

  method DoSetPending(flash: Flash, r: Region, slot: SlotId, version: bv32, size: u32, crc: bv32, attempts: u8)
    returns (ok: bool, ghost fate: Fate)
    requires KeepsRecord(r, flash)
    modifies flash`depth, flash`overwrites, flash.mem
    ensures Tidy(r, flash)
    ensures var change := SetPending(old(Stored(r, flash)), slot, version, size, crc, attempts);
            && Stored(r, flash) == AfterOperation(old(Stored(r, flash)), change, fate)
            && (ok <==> Succeeds(change, fate)) && (flash.reliable ==> fate == Written)
  {
    hide Fits, Stored;
    if slot == NoSlot || version == 0 || size == 0 || crc == 0 || attempts == 0 {
      Unchanging(r, flash);
      return false, Written;
    }
    var record := RecordLoadOrDefault(flash, r);
    var info := record.Info(slot);
    record := record.WithInfo(slot, info.(version := version, size := size, crc := crc, state := Pending,
      attempts := attempts));
    record := record.(pending := slot);
    ok, fate := RecordWrite(flash, r, record);
  }

  method DoConfirm(flash: Flash, r: Region) returns (ok: bool, ghost fate: Fate)
    requires KeepsRecord(r, flash)
    modifies flash`depth, flash`overwrites, flash.mem
    ensures Tidy(r, flash)
    ensures var change := Confirm(old(Stored(r, flash)));
            && Stored(r, flash) == AfterOperation(old(Stored(r, flash)), change, fate)
            && (ok <==> Succeeds(change, fate)) && (flash.reliable ==> fate == Written)
  {
    hide Fits, Stored;
    var m := RecordRead(flash, r);
    if m.None? || m.value.pending == NoSlot {
      Unchanging(r, flash);
      return false, Written;
    }
    var record, slot := m.value, m.value.pending;
    record := record.WithInfo(slot, record.Info(slot).(state := Confirmed, attempts := 0));
    record := record.(active := slot, confirmed := slot, pending := NoSlot);
    if record.Info(Other(slot)).state == Confirmed {
      record := record.WithInfo(Other(slot), record.Info(Other(slot)).(state := Valid));
    }
    ok, fate := RecordWrite(flash, r, record);
  }

  method DoMarkBad(flash: Flash, r: Region, slot: SlotId) returns (ok: bool, ghost fate: Fate)
    requires KeepsRecord(r, flash)
    modifies flash`depth, flash`overwrites, flash.mem
    ensures Tidy(r, flash)
    ensures var change := MarkBad(old(Stored(r, flash)), slot);
            && Stored(r, flash) == AfterOperation(old(Stored(r, flash)), change, fate)
            && (ok <==> Succeeds(change, fate)) && (flash.reliable ==> fate == Written)
  {
    hide Fits, Stored;
    if slot == NoSlot {
      Unchanging(r, flash);
      return false, Written;
    }
    var record := RecordLoadOrDefault(flash, r);
    var other := if slot == A then B else A;
    record := record.WithInfo(slot, record.Info(slot).(state := Bad, attempts := 0));
    if record.pending == slot {
      record := record.(pending := NoSlot);
    }
    if record.confirmed == slot {
      record := record.(confirmed := if SelectableForConfirmed(record, other) then other else NoSlot);
    }
    if record.active == slot {
      record := record.(active := if SelectableForActive(record, other) then other else NoSlot);
    }
    ok, fate := RecordWrite(flash, r, record);
  }

  method DoDecrement(flash: Flash, r: Region) returns (ok: bool, ghost fate: Fate)
    requires KeepsRecord(r, flash)
    modifies flash`depth, flash`overwrites, flash.mem
    ensures Tidy(r, flash)
    ensures var change := DecrementAttempts(old(Stored(r, flash)));
            && Stored(r, flash) == AfterOperation(old(Stored(r, flash)), change, fate)
            && (ok <==> Succeeds(change, fate)) && (flash.reliable ==> fate == Written)
  {
    hide Fits, Stored;
    var record := RecordLoadOrDefault(flash, r);
    var slot := record.pending;
    if slot == NoSlot || record.Info(slot).state != Pending {
      Unchanging(r, flash);
      return false, Written;
    }
    var info := record.Info(slot);
    if info.attempts > 0 {
      info := info.(attempts := info.attempts - 1);
    }
    ok, fate := RecordWrite(flash, r, record.WithInfo(slot, info));
  }

  lemma Unchanging(r: Region, flash: Flash)
    requires Fits(r, flash)
    ensures SameOutside(flash.mem[..], flash.mem[..], At(r, flash, 0), At(r, flash, 0) + r.size)
  {}
}
