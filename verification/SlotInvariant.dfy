/** The relation the metadata operations keep between the active, confirmed and pending slots and the slot states. */
module SlotInvariant {
  import opened Bytes
  import opened Metadata
  import opened DeviceModel

  /** A slot is in state PENDING exactly when it is the pending slot, only the confirmed slot is CONFIRMED, and the
      confirmed slot is CONFIRMED or VALID. */
  ghost predicate StateAgrees(m: Record, slot: SlotId)
    requires slot != NoSlot
  {
    var state := m.Info(slot).state;
    && (state == Pending <==> m.pending == slot)
    && (state == Confirmed ==> m.confirmed == slot)
    && (m.confirmed == slot ==> state == Confirmed || state == Valid)
  }

  ghost predicate Structured(m: Record) {
    && m.active == m.confirmed
    && StateAgrees(m, A) && StateAgrees(m, B)
    && (m.pending != NoSlot ==> m.pending == ChooseTarget(m))
  }

  ghost predicate MetaOk(m: Option<Record>) {
    m.Some? ==> Structured(m.value)
  }

  lemma StructuredFacts(m: Record)
    requires Structured(m)
    ensures m.pending != NoSlot ==> m.pending != m.confirmed
    ensures ChooseTarget(m) != NoSlot && ChooseTarget(m) != m.confirmed
    ensures !(m.Info(A).state == Confirmed && m.Info(B).state == Confirmed)
  {}

  lemma DefaultStructured()
    ensures Structured(DEFAULT_RECORD)
  {}

  lemma SetPendingStructured(m: Option<Record>, version: bv32, size: u32, crc: bv32, attempts: u8)
    requires MetaOk(m)
    ensures MetaOk(SetPending(m, ChooseTarget(LoadOrDefault(m)), version, size, crc, attempts))
  {}

  lemma ConfirmStructured(m: Option<Record>)
    requires MetaOk(m)
    ensures MetaOk(Confirm(m))
    ensures Confirm(m).Some? ==> Confirm(m).value.confirmed == m.value.pending
  {}

  /** A confirm makes the pending image active and confirmed and takes its attempts, and makes the image confirmed
      before it VALID, which is what a later fall-back needs; versions, sizes and checksums stay. */
  lemma ConfirmKeepsPrevious(m: Record)
    requires Structured(m) && m.pending != NoSlot
    ensures var c := Confirm(Some(m));
            && c.Some? && c.value.active == m.pending && c.value.confirmed == m.pending && c.value.pending == NoSlot
            && c.value.Info(m.pending) == m.Info(m.pending).(state := Confirmed, attempts := 0)
            && (m.confirmed == NoSlot ==> c.value.Info(Other(m.pending)) == m.Info(Other(m.pending)))
            && (m.confirmed != NoSlot ==>
                  m.confirmed == Other(m.pending)
                  && c.value.Info(m.confirmed) == m.Info(m.confirmed).(state := Valid))
  {}

  /** The slot holds an image that must not run: no part of the record leads to it. */
  ghost predicate TakenOut(m: Record, slot: SlotId)
    requires slot != NoSlot
  {
    m.Info(slot).state == Bad && m.pending != slot && m.confirmed != slot
  }

  /** Marking a slot bad takes it out and leaves the other slot's record alone. */
  lemma MarkBadTakesOut(m: Option<Record>, slot: SlotId)
    requires slot != NoSlot
    ensures var before, bad := LoadOrDefault(m), MarkBad(m, slot);
            && bad.Some? && TakenOut(bad.value, slot) && bad.value.active != slot
            && bad.value.Info(slot) == before.Info(slot).(state := Bad, attempts := 0)
            && bad.value.Info(Other(slot)) == before.Info(Other(slot))
            && (before.pending != slot ==> bad.value.pending == before.pending)
            && (before.confirmed != slot ==> bad.value.confirmed == before.confirmed)
  {}

  lemma DecrementStructured(m: Option<Record>)
    requires MetaOk(m)
    ensures MetaOk(DecrementAttempts(m))
  {}

  lemma MarkPendingBadStructured(m: Record)
    requires Structured(m) && m.pending != NoSlot
    ensures var bad := MarkBad(Some(m), m.pending);
            bad.Some? && Structured(bad.value) && bad.value.pending == NoSlot && bad.value.confirmed == m.confirmed
  {}

  lemma MarkConfirmedBadStructured(m: Record)
    requires Structured(m) && m.pending == NoSlot && m.confirmed != NoSlot
    ensures var bad := MarkBad(Some(m), m.confirmed);
            && bad.Some? && Structured(bad.value) && bad.value.pending == NoSlot
            && bad.value.confirmed == if m.Info(Other(m.confirmed)).state == Valid then Other(m.confirmed) else NoSlot
  {}

  /** Marking a slot bad separates active from confirmed exactly when the slot is the confirmed one and the
      other slot is pending. */
  lemma MarkBadKeepsActiveConfirmedIff(m: Record, slot: SlotId)
    requires m.active == m.confirmed && slot != NoSlot
    ensures var bad := MarkBad(Some(m), slot).value;
            bad.active == bad.confirmed <==> !(m.confirmed == slot && m.Info(Other(slot)).state == Pending)
  {}
}
