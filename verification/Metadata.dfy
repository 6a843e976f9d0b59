/** The persistent record of the two image slots: its byte layout and the operations on it. */
module Metadata {
  import opened Bytes
  import opened Crc32

  datatype Option<+T> = None | Some(value: T)

  datatype SlotId = A | B | NoSlot

  datatype SlotState = Empty | Valid | Pending | Confirmed | Bad

  datatype SlotInfo = SlotInfo(version: bv32, size: u32, crc: bv32, state: SlotState, attempts: u8, reserved: u16)

  datatype Record = Record(
    active: SlotId, confirmed: SlotId, pending: SlotId, reserved0: u8, a: SlotInfo, b: SlotInfo)
  {
    function Info(slot: SlotId): SlotInfo
      requires slot != NoSlot
    {
      if slot == A then a else b
    }

    function WithInfo(slot: SlotId, info: SlotInfo): Record
      requires slot != NoSlot
    {
      if slot == A then this.(a := info) else this.(b := info)
    }
  }

  function Other(slot: SlotId): SlotId
    requires slot != NoSlot
  {
    if slot == A then B else A
  }

  const EMPTY_SLOT := SlotInfo(0, 0, 0, Empty, 0, 0)
  const DEFAULT_RECORD := Record(NoSlot, NoSlot, NoSlot, 0, EMPTY_SLOT, EMPTY_SLOT)

  // ---- byte layout ----

  const MAGIC: u32 := 0xB00710AD
  const RECORD_SIZE := 44

  function SlotIdByte(slot: SlotId): byte {
    match slot case A => 0 case B => 1 case NoSlot => 0xFF
  }

  function SlotIdOf(b: byte): Option<SlotId> {
    if b == 0 then Some(A) else if b == 1 then Some(B) else if b == 0xFF then Some(NoSlot) else None
  }

  function StateByte(state: SlotState): byte {
    match state case Empty => 0 case Valid => 1 case Pending => 2 case Confirmed => 3 case Bad => 4
  }

  function StateOf(b: byte): Option<SlotState> {
    if b == 0 then Some(Empty) else if b == 1 then Some(Valid) else if b == 2 then Some(Pending)
    else if b == 3 then Some(Confirmed) else if b == 4 then Some(Bad) else None
  }

  function EncodeInfo(i: SlotInfo): (s: seq<byte>)
    ensures |s| == 16
  {
    Le32(i.version) + LeU32(i.size) + Le32(i.crc) + [StateByte(i.state), i.attempts] + Le16(i.reserved)
  }

  function DecodeInfo(s: seq<byte>): Option<SlotInfo>
    requires |s| == 16
  {
    match StateOf(s[12])
    case None => None
    case Some(state) =>
      Some(SlotInfo(FromLe32(s[0..4]), FromLeU32(s[4..8]), FromLe32(s[8..12]), state, s[13], FromLe16(s[14..16])))
  }

  function EncodeBody(r: Record): (s: seq<byte>)
    ensures |s| == 40
  {
    LeU32(MAGIC) + [SlotIdByte(r.active), SlotIdByte(r.confirmed), SlotIdByte(r.pending), r.reserved0]
    + EncodeInfo(r.a) + EncodeInfo(r.b)
  }

  function Encode(r: Record): (s: seq<byte>)
    ensures |s| == RECORD_SIZE
  {
    EncodeBody(r) + Le32(Crc(EncodeBody(r), 0))
  }

  /** The record a page's first bytes hold, or nothing when magic, slot ids, slot states or the record's
      own checksum are wrong. */
  function Decode(s: seq<byte>): Option<Record>
    requires |s| == RECORD_SIZE
  {
    if FromLeU32(s[0..4]) != MAGIC then None
    else if SlotIdOf(s[4]).None? || SlotIdOf(s[5]).None? || SlotIdOf(s[6]).None? then None
    else if DecodeInfo(s[8..24]).None? || DecodeInfo(s[24..40]).None? then None
    else if FromLe32(s[40..44]) != Crc(s[..40], 0) then None
    else Some(Record(SlotIdOf(s[4]).value, SlotIdOf(s[5]).value, SlotIdOf(s[6]).value, s[7],
                     DecodeInfo(s[8..24]).value, DecodeInfo(s[24..40]).value))
  }

  lemma InfoRoundTrip(i: SlotInfo)
    ensures DecodeInfo(EncodeInfo(i)) == Some(i)
  {
    hide Le32, FromLe32, LeU32, FromLeU32, Le16, FromLe16;
    var s := EncodeInfo(i);
    assert s[0..4] == Le32(i.version) && s[4..8] == LeU32(i.size) && s[8..12] == Le32(i.crc)
        && s[14..16] == Le16(i.reserved);
    Le32RoundTrip(i.version);
    LeU32RoundTrip(i.size);
    Le32RoundTrip(i.crc);
    Le16RoundTrip(i.reserved);
  }

  lemma InfoCanonical(s: seq<byte>)
    requires |s| == 16 && DecodeInfo(s).Some?
    ensures EncodeInfo(DecodeInfo(s).value) == s
  {
    hide Le32, FromLe32, LeU32, FromLeU32, Le16, FromLe16;
    Le32Canonical(s[0..4]);
    LeU32Canonical(s[4..8]);
    Le32Canonical(s[8..12]);
    Le16Canonical(s[14..16]);
    assert s == s[0..4] + s[4..8] + s[8..12] + [s[12], s[13]] + s[14..16];
  }

  /** What is written is what is read back. */
  lemma RecordRoundTrip(r: Record)
    ensures Decode(Encode(r)) == Some(r)
  {
    hide Le32, FromLe32, LeU32, FromLeU32, EncodeInfo, DecodeInfo, Crc;
    var body := EncodeBody(r);
    var s := Encode(r);
    assert s[0..4] == LeU32(MAGIC) && s[8..24] == EncodeInfo(r.a) && s[24..40] == EncodeInfo(r.b);
    assert s[40..44] == Le32(Crc(body, 0)) && s[..40] == body;
    LeU32RoundTrip(MAGIC);
    InfoRoundTrip(r.a);
    InfoRoundTrip(r.b);
    Le32RoundTrip(Crc(body, 0));
  }

  /** Exactly one byte string is read as a given record. */
  lemma RecordCanonical(s: seq<byte>)
    requires |s| == RECORD_SIZE && Decode(s).Some?
    ensures Encode(Decode(s).value) == s
  {
    hide Le32, FromLe32, LeU32, FromLeU32, EncodeInfo, DecodeInfo, Crc;
    LeU32Canonical(s[0..4]);
    InfoCanonical(s[8..24]);
    InfoCanonical(s[24..40]);
    Le32Canonical(s[40..44]);
    assert s[..40] == s[0..4] + [s[4], s[5], s[6], s[7]] + s[8..24] + s[24..40];
    assert s == s[..40] + s[40..44];
  }

  // ---- operations: the record each one writes, or None where it refuses ----

  function LoadOrDefault(m: Option<Record>): Record {
    if m.Some? then m.value else DEFAULT_RECORD
  }

  function SetPending(m: Option<Record>, slot: SlotId, version: bv32, size: u32, crc: bv32, attempts: u8)
    : Option<Record>
  {
    if slot == NoSlot || version == 0 || size == 0 || crc == 0 || attempts == 0 then None else
      var r := LoadOrDefault(m);
      Some(r.WithInfo(slot, SlotInfo(version, size, crc, Pending, attempts, r.Info(slot).reserved)).(pending := slot))
  }

  function Confirm(m: Option<Record>): Option<Record> {
    if m.None? || m.value.pending == NoSlot then None else
      var r := m.value;
      var slot, other := r.pending, Other(r.pending);
      var confirmed := r.WithInfo(slot, r.Info(slot).(state := Confirmed, attempts := 0))
                       .(active := slot, confirmed := slot, pending := NoSlot);
      Some(if confirmed.Info(other).state == Confirmed
           then confirmed.WithInfo(other, confirmed.Info(other).(state := Valid)) else confirmed)
  }

  predicate SelectableForConfirmed(r: Record, slot: SlotId)
    requires slot != NoSlot
  {
    r.Info(slot).state in {Confirmed, Valid}
  }

  predicate SelectableForActive(r: Record, slot: SlotId)
    requires slot != NoSlot
  {
    r.Info(slot).state in {Confirmed, Valid, Pending}
  }

  function MarkBad(m: Option<Record>, slot: SlotId): Option<Record> {
    if slot == NoSlot then None else
      var r := LoadOrDefault(m);
      var other := Other(slot);
      var bad := r.WithInfo(slot, r.Info(slot).(state := Bad, attempts := 0));
      Some(bad.(pending := if r.pending == slot then NoSlot else r.pending,
                confirmed := if r.confirmed != slot then r.confirmed
                             else if SelectableForConfirmed(bad, other) then other else NoSlot,
                active := if r.active != slot then r.active
                          else if SelectableForActive(bad, other) then other else NoSlot))
  }

  function DecrementAttempts(m: Option<Record>): Option<Record> {
    var r := LoadOrDefault(m);
    if r.pending == NoSlot || r.Info(r.pending).state != Pending then None else
      var i := r.Info(r.pending);
      Some(r.WithInfo(r.pending, i.(attempts := if i.attempts > 0 then i.attempts - 1 else 0)))
  }
}
