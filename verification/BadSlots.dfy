/** Images marked bad: no part of the record leads to them, and they are not started again. */
module BadSlots {
  import opened Bytes
  import opened Protocol
  import opened Metadata
  import opened DeviceModel
  import opened SlotInvariant
  import opened BootSystem
  import MetaStore
  import TrialBoots

  ghost predicate IsOut(d: Device, slot: SlotId)
    requires slot != NoSlot
  {
    TakenOut(LoadOrDefault(d.meta), slot)
  }

  /** END asks for a download in the slot to be recorded. */
  predicate EndsInto(s: System, e: Event, slot: SlotId)
    requires Possible(e)
  {
    e.Poll? && s.mode == Bootloader && TrialBoots.IsEndCmd(s.dev, e.buf, e.len) && s.dev.target == slot
  }

  /** No record operation but recording a download in the slot brings it back. */
  lemma OperationsKeepOut(m: Record, slot: SlotId, other: SlotId)
    requires slot != NoSlot && TakenOut(m, slot)
    ensures Confirm(Some(m)).Some? ==> TakenOut(Confirm(Some(m)).value, slot)
    ensures MarkBad(Some(m), other).Some? ==> TakenOut(MarkBad(Some(m), other).value, slot)
    ensures DecrementAttempts(Some(m)).Some? ==> TakenOut(DecrementAttempts(Some(m)).value, slot)
  {}

  lemma TryPendingKeepsOut(d: Device, fates: Fates, slot: SlotId)
    requires slot != NoSlot && d.meta.Some? && d.ctrl == d.meta.value && AllOrNothing(fates) && IsOut(d, slot)
    ensures var o := TryPending(d, fates);
            && IsOut(o.device, slot) && o.jump != slot && o.device.meta.Some?
            && (o.jump == NoSlot ==> o.device.ctrl == o.device.meta.value)
  {
    var counted := MetaStore.AfterOperation(d.meta, DecrementAttempts(d.meta), fates.decrement);
    OperationsKeepOut(d.ctrl, slot, d.ctrl.pending);
    OperationsKeepOut(counted.value, slot, d.ctrl.pending);
    hide ImageOk, TakenOut, MarkBad, DecrementAttempts;
    NotPending(d.ctrl, slot);
  }

  lemma NotPending(m: Record, slot: SlotId)
    requires slot != NoSlot && TakenOut(m, slot)
    ensures m.pending != slot && m.confirmed != slot
  {}

  lemma BootKeepsOut(d: Device, fates: Fates, slot: SlotId)
    requires slot != NoSlot && AllOrNothing(fates) && IsOut(d, slot)
    ensures var o := BootDecide(d, fates); IsOut(o.device, slot) && o.jump != slot
  {
    if d.meta.Some? {
      var first := TryPending(d.Refreshed(), fates);
      TryPendingKeepsOut(d.Refreshed(), fates, slot);
      OperationsKeepOut(first.device.meta.value, slot, first.device.meta.value.confirmed);
      NotPending(first.device.meta.value, slot);
      hide TryPending, ImageOk, TakenOut, MarkBad;
    }
  }

  lemma EndKeepsOut(d: Device, fates: Fates, slot: SlotId)
    requires slot != NoSlot && AllOrNothing(fates) && IsOut(d, slot) && d.target != slot
    ensures IsOut(HandleEnd(d, fates).device, slot)
  {
    hide ImageOk;
  }

  lemma CmdKeepsOut(d: Device, cmd: byte, fates: Fates, slot: SlotId)
    requires slot != NoSlot && AllOrNothing(fates) && IsOut(d, slot)
    requires !(d.state == WaitEnd && cmd == CMD_END && d.target == slot) && !(d.state == Idle && cmd == CMD_BOOT)
    ensures var o := HandleCmd(d, cmd, fates); IsOut(o.device, slot) && o.jump == NoSlot
  {
    hide TakenOut, BootDecide, HandleEnd, ChooseTarget;
    if d.state == WaitEnd && cmd == CMD_END {
      EndKeepsOut(d, fates, slot);
      EndStays(d, fates);
    }
  }

  lemma EndStays(d: Device, fates: Fates)
    ensures HandleEnd(d, fates).jump == NoSlot
  {
    hide ImageOk, SetPending;
  }

  lemma DataStays(d: Device, buf: seq<byte>, len: nat, fates: Fates)
    requires |buf| == MAX_FRAME && len <= MAX_FRAME
    ensures HandleData(d, buf, len, fates).jump == NoSlot
  {
    hide WriteSlot, DataFault, FromLe16, FromLeU32;
  }

  lemma PollKeepsOut(d: Device, e: Event, slot: SlotId)
    requires slot != NoSlot && Whole(e) && e.Poll? && IsOut(d, slot)
    requires !IsBootCmd(d, e.buf, e.len) && !EndsInto(System(d, Bootloader), e, slot)
    ensures var o := PollFrame(d, e.buf, e.len, e.fates); IsOut(o.device, slot) && o.jump == NoSlot
  {
    PollCases(d, e.buf, e.len, e.fates);
    TrialBoots.PollCommand(d, e.buf, e.len, e.fates);
    var f := e.buf[..e.len];
    DataStays(d, e.buf, e.len, e.fates);
    hide CrcOk, HandleCmd, HandleData, FromLeU32, FromLe32, PollFrame, EraseSlot, TakenOut;
    if e.len > 4
       && !(d.state == Idle && f[4] == CMD_BOOT) && !(d.state == WaitEnd && f[4] == CMD_END && d.target == slot)
    {
      CmdKeepsOut(d, f[4], e.fates, slot);
    }
  }

  lemma StepKeepsOut(s: System, e: Event, slot: SlotId)
    requires slot != NoSlot && Whole(e) && IsOut(s.dev, slot) && !EndsInto(s, e, slot)
    ensures IsOut(Step(s, e).dev, slot)
    ensures Step(s, e).mode == Running(slot) ==> s.mode == Running(slot)
  {
    hide PollFrame, BootDecide, TakenOut, IsBootCmd;
    if Decides(s, e) {
      DecisionStep(s, e);
      BootKeepsOut(Decider(s, e), e.fates, slot);
    } else {
      match e
      case Poll(buf, len, fates) =>
        if s.mode == Bootloader {
          PollKeepsOut(s.dev, e, slot);
        }
      case Restart(button, fates) =>
      case AppConfirm(fate) =>
        ConfirmKeepsOut(s.dev.meta, slot);
      case Rot(x, content) =>
    }
  }

  lemma ConfirmKeepsOut(m: Option<Record>, slot: SlotId)
    requires slot != NoSlot && TakenOut(LoadOrDefault(m), slot)
    ensures Confirm(m).Some? ==> TakenOut(Confirm(m).value, slot)
  {
    if m.Some? {
      OperationsKeepOut(m.value, slot, NoSlot);
    }
  }

  /** The boot decision could not start the pending image, and marking it bad took effect: it is taken out. */
  lemma FailedTrialTakenOut(d: Device, fates: Fates)
    requires AllOrNothing(fates) && PendingOf(d) != NoSlot && MetaStore.TakesEffect(fates.badPending)
    requires LoadOrDefault(d.meta).Info(PendingOf(d)).attempts == 0 || !Sound(d, PendingOf(d))
    ensures IsOut(BootDecide(d, fates).device, PendingOf(d))
  {
    var l, p := d.Refreshed(), PendingOf(d);
    MarkBadTakesOut(d.meta, p);
    var first := TryPending(l, fates);
    assert IsOut(first.device, p) && first.jump == NoSlot && first.device.ctrl == first.device.meta.value by {
      hide ImageOk, TakenOut, MarkBad;
    }
    OperationsKeepOut(first.device.meta.value, p, first.device.meta.value.confirmed);
    hide TryPending, ImageOk, TakenOut, MarkBad;
  }

  lemma {:induction false} OutUpTo(s: System, es: seq<Event>, slot: SlotId, n: nat)
    requires slot != NoSlot && n <= |es| && (forall e :: e in es ==> Possible(e) && Whole(e)) && IsOut(s.dev, slot)
    requires forall i :: 0 <= i < n ==> !EndsInto(StateAt(s, es, i), es[i], slot)
    ensures IsOut(StateAt(s, es, n).dev, slot)
    ensures s.mode != Running(slot) ==> StateAt(s, es, n).mode != Running(slot)
  {
    hide IsOut, Step, EndsInto;
    if n == 0 {
      StateEnds(s, es);
    } else {
      OutUpTo(s, es, slot, n - 1);
      StateNext(s, es, n - 1);
      StepKeepsOut(StateAt(s, es, n - 1), es[n - 1], slot);
    }
  }

  /** A pending image that has used up its trials or does not match its record is, once marked bad, never started again
      on any run of frames, restarts, confirms and decay, until END records a new download in its slot. */
  lemma FailedImageNeverStarts(s: System, first: Event, es: seq<Event>)
    requires Whole(first) && Decides(s, first) && MetaStore.TakesEffect(first.fates.badPending)
    requires var d := Decider(s, first);
             && PendingOf(d) != NoSlot
             && (LoadOrDefault(d.meta).Info(PendingOf(d)).attempts == 0 || !Sound(d, PendingOf(d)))
    requires forall e :: e in es ==> Possible(e) && Whole(e)
    requires forall i :: 0 <= i < |es| ==> !EndsInto(StateAt(Step(s, first), es, i), es[i], PendingOf(s.dev))
    ensures forall n :: 0 <= n <= |es| ==>
              StateAt(Step(s, first), es, n).mode != Running(PendingOf(s.dev))
              && IsOut(StateAt(Step(s, first), es, n).dev, PendingOf(s.dev))
  {
    var t, p := Step(s, first), PendingOf(s.dev);
    DecisionStep(s, first);
    FailedTrialTakenOut(Decider(s, first), first.fates);
    FailedTrialNotStarted(Decider(s, first), first.fates);
    hide IsOut, Step, EndsInto, BootDecide, ImageOk, Decides, StateAt;
    forall n | 0 <= n <= |es| ensures StateAt(t, es, n).mode != Running(p) && IsOut(StateAt(t, es, n).dev, p) {
      OutUpTo(t, es, p, n);
    }
  }

  lemma FailedTrialNotStarted(d: Device, fates: Fates)
    requires AllOrNothing(fates) && PendingOf(d) != NoSlot && MetaStore.TakesEffect(fates.badPending)
    requires LoadOrDefault(d.meta).Info(PendingOf(d)).attempts == 0 || !Sound(d, PendingOf(d))
    ensures BootDecide(d, fates).jump != PendingOf(d)
  {
    var l, p := d.Refreshed(), PendingOf(d);
    MarkBadTakesOut(d.meta, p);
    hide ImageOk, TakenOut, MarkBad;
  }
}
