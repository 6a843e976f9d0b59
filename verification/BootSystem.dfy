/** The device through polls, restarts and application confirms: what holds on every run. */
module BootSystem {
  import opened Bytes
  import opened Protocol
  import opened Metadata
  import opened DeviceModel
  import opened SlotInvariant
  import MetaStore

  datatype Mode = Bootloader | Running(slot: SlotId)

  datatype System = System(dev: Device, mode: Mode)

  /** A frame polled in the bootloader, a restart with the button up or down, the application confirming its image,
      or a slot's content decaying. */
  datatype Event =
    | Poll(buf: seq<byte>, len: nat, fates: Fates)
    | Restart(button: bool, fates: Fates)
    | AppConfirm(fate: MetaStore.Fate)
    | Rot(slot: SlotId, content: seq<byte>)

  predicate Possible(e: Event) {
    match e
    case Poll(buf, len, _) => |buf| == MAX_FRAME && 0 < len <= MAX_FRAME
    case Restart(_, _) => true
    case AppConfirm(_) => true
    case Rot(slot, content) => slot != NoSlot && |content| == SLOT_SIZE
  }

  /** No record write is cut between erase and write. */
  predicate AllOrNothing(f: Fates) {
    !f.setPending.Torn? && !f.decrement.Torn? && !f.badPending.Torn? && !f.badConfirmed.Torn?
  }

  /** A possible event whose record writes are all-or-nothing. */
  predicate Whole(e: Event) {
    && Possible(e)
    && match e
       case Poll(_, _, fates) => AllOrNothing(fates)
       case Restart(_, fates) => AllOrNothing(fates)
       case AppConfirm(fate) => !fate.Torn?
       case Rot(_, _) => true
  }

  function Booted(d: Device): Device {
    d.Refreshed().Reset().(state := Idle)
  }

  function Land(o: Outcome): System {
    System(o.device, if o.jump == NoSlot then Bootloader else Running(o.jump))
  }

  function Step(s: System, e: Event): System
    requires Possible(e)
  {
    match e
    case Poll(buf, len, fates) =>
      if s.mode == Bootloader then Land(PollFrame(s.dev, buf, len, fates)) else s
    case Restart(button, fates) =>
      if button then System(Booted(s.dev), Bootloader) else Land(BootDecide(Booted(s.dev), fates))
    case AppConfirm(fate) =>
      if s.mode == Bootloader then s
      else s.(dev := s.dev.(meta := MetaStore.AfterOperation(s.dev.meta, Confirm(s.dev.meta), fate)))
    case Rot(slot, content) =>
      s.(dev := s.dev.WithSlot(slot, content))
  }

  function Run(s: System, es: seq<Event>): System
    requires forall e :: e in es ==> Possible(e)
  {
    if es == [] then s else Step(Run(s, es[..|es| - 1]), es[|es| - 1])
  }

  /** Where a run is after its first n events. */
  function StateAt(s: System, es: seq<Event>, n: nat): System
    requires n <= |es| && forall e :: e in es ==> Possible(e)
  {
    Run(s, es[..n])
  }

  lemma StateNext(s: System, es: seq<Event>, n: nat)
    requires n < |es| && forall e :: e in es ==> Possible(e)
    ensures StateAt(s, es, n + 1) == Step(StateAt(s, es, n), es[n])
  {
    assert es[..n + 1][..n] == es[..n] && es[..n + 1][n] == es[n];
  }

  lemma StateEnds(s: System, es: seq<Event>)
    requires forall e :: e in es ==> Possible(e)
    ensures StateAt(s, es, 0) == s && StateAt(s, es, |es|) == Run(s, es)
  {
    assert es[..|es|] == es;
  }

  // ---- boot decisions ----

  predicate IsBootCmd(d: Device, buf: seq<byte>, len: nat)
    requires len <= |buf|
  {
    var f := buf[..len];
    len == 13 && Accepted(f) && f[1] == PKT_CMD && f[4] == CMD_BOOT && d.state == Idle
  }

  /** The event takes a boot decision, on the device Decider gives. */
  predicate Decides(s: System, e: Event)
    requires Possible(e)
  {
    match e
    case Poll(buf, len, _) => s.mode == Bootloader && IsBootCmd(s.dev, buf, len)
    case Restart(button, _) => !button
    case AppConfirm(_) => false
    case Rot(_, _) => false
  }

  function Decider(s: System, e: Event): Device {
    if e.Restart? then Booted(s.dev) else s.dev
  }

  /** A boot decision of d starts the pending image. */
  predicate StartsTrial(d: Device, fates: Fates) {
    d.meta.Some? && TryPending(d.Refreshed(), fates).jump != NoSlot
  }

  lemma DecisionStep(s: System, e: Event)
    requires Possible(e) && Decides(s, e)
    ensures Step(s, e) == Land(BootDecide(Decider(s, e), e.fates)) && Decider(s, e).state == Idle
    ensures Decider(s, e).meta == s.dev.meta && Decider(s, e).a == s.dev.a && Decider(s, e).b == s.dev.b
  {
    hide CrcOk, BootDecide, FromLeU32, FromLe32, HandleEnd, HandleHeader, HandleData;
  }

  // ---- the structure of the metadata, with decaying slots ----

  predicate InTransfer(d: Device) {
    d.state in {WaitHeader, RecvData, WaitEnd}
  }

  ghost predicate DeviceOk(d: Device) {
    && d.WellFormed() && MetaOk(d.meta)
    && (InTransfer(d) ==> d.target == ChooseTarget(LoadOrDefault(d.meta)))
  }

  function PendingOf(d: Device): SlotId { LoadOrDefault(d.meta).pending }

  function ConfirmedOf(d: Device): SlotId { LoadOrDefault(d.meta).confirmed }

  /** The structure holds, and a running application has left no transfer behind. */
  ghost predicate Grounded(s: System) {
    DeviceOk(s.dev) && (s.mode.Running? ==> !InTransfer(s.dev))
  }

  /** A running application is the pending one, or nothing is pending. */
  predicate RunsPending(s: System) {
    s.mode.Running? ==> PendingOf(s.dev) in {NoSlot, s.mode.slot}
  }

  /** The slot's content matches the size and checksum its record states. */
  predicate Sound(d: Device, slot: SlotId)
    requires slot != NoSlot
  {
    var i := LoadOrDefault(d.meta).Info(slot);
    ImageOk(d.Slot(slot), i.size, i.crc)
  }

  /** The pending image is not started although it is pending, and the write that should mark it bad does nothing. */
  predicate StalePending(d: Device, fates: Fates) {
    && PendingOf(d) != NoSlot && fates.badPending == MetaStore.Kept
    && (LoadOrDefault(d.meta).Info(PendingOf(d)).attempts == 0 || !Sound(d, PendingOf(d))
        || fates.decrement != MetaStore.Written)
  }

  /** The decision meets a stale pending image and a decayed confirmed one, which it marks bad. */
  predicate Separates(d: Device, fates: Fates) {
    && ConfirmedOf(d) != NoSlot && StalePending(d, fates) && !Sound(d, ConfirmedOf(d))
    && MetaStore.TakesEffect(fates.badConfirmed)
  }

  /** The decision meets a stale pending image and starts the confirmed one beside it. */
  predicate StartsBeside(d: Device, fates: Fates) {
    ConfirmedOf(d) != NoSlot && StalePending(d, fates) && Sound(d, ConfirmedOf(d))
  }

  /** Trying the pending slot keeps the structure whatever record write fails. */
  lemma TryPendingStructured(d: Device, fates: Fates)
    requires DeviceOk(d) && d.meta.Some? && d.ctrl == d.meta.value && !InTransfer(d) && AllOrNothing(fates)
    ensures var o := TryPending(d, fates);
            && DeviceOk(o.device) && o.device.meta.Some? && !InTransfer(o.device)
            && o.device.a == d.a && o.device.b == d.b
            && o.device.meta.value.confirmed == d.ctrl.confirmed
            && (o.jump != NoSlot ==> o.jump == d.ctrl.pending == o.device.meta.value.pending)
            && (o.jump == NoSlot ==> o.device.ctrl == o.device.meta.value)
  {
    hide ImageOk, Structured, StateAgrees;
    if d.ctrl.pending != NoSlot {
      MarkPendingBadStructured(d.ctrl);
      DecrementStructured(d.meta);
      DecrementKeepsSlots(d.meta.value);
      MarkPendingBadStructured(MetaStore.AfterOperation(d.meta, DecrementAttempts(d.meta), fates.decrement).value);
    }
  }

  /** Only a stale pending image is left pending without being started. */
  lemma TryPendingLeaves(d: Device, fates: Fates)
    requires DeviceOk(d) && d.meta.Some? && d.ctrl == d.meta.value && !InTransfer(d) && AllOrNothing(fates)
    ensures var o := TryPending(d, fates);
            && (StalePending(d, fates) ==> o.jump == NoSlot)
            && (o.jump == NoSlot ==> PendingOf(o.device) == if StalePending(d, fates) then PendingOf(d) else NoSlot)
            && o.device.state == d.state
  {
    hide ImageOk;
  }

  /** And the confirmed slot's size and checksum stay as they are. */
  lemma TryPendingKeepsConfirmedInfo(d: Device, fates: Fates)
    requires DeviceOk(d) && d.meta.Some? && d.ctrl == d.meta.value && !InTransfer(d) && AllOrNothing(fates)
    requires d.ctrl.confirmed != NoSlot
    ensures var o, c := TryPending(d, fates), d.ctrl.confirmed;
            o.device.meta.Some? && o.device.meta.value.Info(c) == d.ctrl.Info(c)
  {
    hide ImageOk;
  }

  lemma DecrementKeepsSlots(m: Record)
    ensures var r := DecrementAttempts(Some(m));
            r.Some? ==> r.value.pending == m.pending && r.value.confirmed == m.confirmed && r.value.active == m.active
  {}

  /** Marking a confirmed slot bad keeps the structure exactly if nothing is pending. */
  lemma TryConfirmedStructuredIff(d: Device, fates: Fates)
    requires DeviceOk(d) && d.meta.Some? && d.ctrl == d.meta.value && !InTransfer(d) && AllOrNothing(fates)
    ensures var o, c := TryConfirmed(d, fates), d.ctrl.confirmed;
            && !InTransfer(o.device) && o.device.a == d.a && o.device.b == d.b
            && (o.jump != NoSlot <==> c != NoSlot && Sound(d, c))
            && (o.jump != NoSlot || c == NoSlot ==> o.device == d) && (o.jump != NoSlot ==> o.jump == c)
            && (DeviceOk(o.device) <==>
                  !(c != NoSlot && !Sound(d, c) && d.ctrl.pending != NoSlot
                    && MetaStore.TakesEffect(fates.badConfirmed)))
  {
    hide ImageOk, Structured, StateAgrees;
    var slot := d.ctrl.confirmed;
    if slot != NoSlot && !Sound(d, slot) {
      MarkConfirmedBadIff(d.ctrl);
    }
  }

  lemma MarkConfirmedBadIff(m: Record)
    requires Structured(m) && m.confirmed != NoSlot
    ensures MarkBad(Some(m), m.confirmed).Some?
    ensures Structured(MarkBad(Some(m), m.confirmed).value) <==> m.pending == NoSlot
  {}

  /** A boot decision keeps the structure exactly unless it separates active from confirmed, and what it starts is the
      pending image, or nothing stays pending, exactly unless it starts the confirmed one beside a stale one. */
  lemma BootDecideIff(d: Device, fates: Fates)
    requires DeviceOk(d) && !InTransfer(d) && AllOrNothing(fates)
    ensures var o := BootDecide(d, fates);
            && o.device.a == d.a && o.device.b == d.b && !InTransfer(o.device)
            && (DeviceOk(o.device) <==> !Separates(d, fates))
            && (RunsPending(Land(o)) <==> !StartsBeside(d, fates))
  {
    if d.meta.Some? {
      var loaded := d.Refreshed();
      var first := TryPending(loaded, fates);
      StructuredFacts(d.meta.value);
      TryPendingStructured(loaded, fates);
      TryPendingLeaves(loaded, fates);
      if ConfirmedOf(d) != NoSlot {
        TryPendingKeepsConfirmedInfo(loaded, fates);
      }
      hide ImageOk, Structured, StateAgrees, TryPending, TryConfirmed;
      if first.jump == NoSlot {
        TryConfirmedStructuredIff(first.device, fates);
      }
    }
  }

  // ---- the other events ----

  lemma HandleEndOk(d: Device, fates: Fates)
    requires DeviceOk(d) && d.state == WaitEnd && AllOrNothing(fates)
    ensures var o := HandleEnd(d, fates);
            DeviceOk(o.device) && o.jump == NoSlot && o.device.a == d.a && o.device.b == d.b
  {
    hide ImageOk, Structured, ChooseTarget;
    var s := d.session;
    SetPendingStructured(d.meta, s.imageVersion, s.imageSize, s.imageCrc, MAX_BOOT_ATTEMPTS);
  }

  lemma HandleCmdOk(d: Device, cmd: byte, fates: Fates)
    requires DeviceOk(d) && AllOrNothing(fates) && !(d.state == Idle && cmd == CMD_BOOT)
    ensures var o := HandleCmd(d, cmd, fates);
            DeviceOk(o.device) && o.jump == NoSlot && o.device.a == d.a && o.device.b == d.b
  {
    hide Structured, ChooseTarget, BootDecide, HandleEnd;
    if d.state == WaitEnd && cmd == CMD_END {
      HandleEndOk(d, fates);
    }
  }

  lemma HandleHeaderOk(d: Device, size: u32, crc: bv32, version: bv32, fates: Fates)
    requires DeviceOk(d)
    ensures DeviceOk(HandleHeader(d, size, crc, version, fates).device)
    ensures SameMeta(d, HandleHeader(d, size, crc, version, fates))
  {
    hide Structured, ChooseTarget, EraseSlot;
  }

  lemma HandleDataOk(d: Device, buf: seq<byte>, len: nat, fates: Fates)
    requires DeviceOk(d) && |buf| == MAX_FRAME && len <= MAX_FRAME
    ensures DeviceOk(HandleData(d, buf, len, fates).device)
    ensures SameMeta(d, HandleData(d, buf, len, fates))
  {
    hide Structured, ChooseTarget, WriteSlot, DataFault, FromLe16, FromLeU32;
  }

  /** The metadata and the other slot are untouched, and nothing is started. */
  ghost predicate SameMeta(d: Device, o: Outcome) {
    && o.device.meta == d.meta && o.jump == NoSlot
    && (d.target != A ==> o.device.a == d.a) && (d.target != B ==> o.device.b == d.b)
  }

  /** What a poll amounts to: a refusal that changes nothing, or one of the three handlers. */
  lemma PollCases(d: Device, buf: seq<byte>, len: nat, fates: Fates)
    requires |buf| == MAX_FRAME && 0 < len <= MAX_FRAME
    ensures var o, f := PollFrame(d, buf, len, fates), buf[..len];
            || (o.device == d && o.jump == NoSlot)
            || (Accepted(f) && f[1] == PKT_CMD && len == 13 && o == HandleCmd(d, f[4], fates))
            || (Accepted(f) && f[1] == PKT_HEADER && len == 21
                && o == HandleHeader(d, FromLeU32(f[4..8]), FromLe32(f[8..12]), FromLe32(f[12..16]), fates))
            || (Accepted(f) && f[1] == PKT_DATA && o == HandleData(d, buf, len, fates))
  {
    hide CrcOk, HandleCmd, HandleHeader, HandleData, FromLeU32, FromLe32;
  }

  lemma PollOk(d: Device, buf: seq<byte>, len: nat, fates: Fates)
    requires DeviceOk(d) && |buf| == MAX_FRAME && 0 < len <= MAX_FRAME
    requires AllOrNothing(fates) && !IsBootCmd(d, buf, len)
    ensures var o := PollFrame(d, buf, len, fates); DeviceOk(o.device) && o.jump == NoSlot
  {
    hide CrcOk, HandleCmd, HandleHeader, HandleData, FromLeU32, FromLe32, PollFrame, DeviceOk;
    var f := buf[..len];
    PollCases(d, buf, len, fates);
    if len == 13 && !(d.state == Idle && f[4] == CMD_BOOT) {
      HandleCmdOk(d, f[4], fates);
    }
    if len == 21 {
      HandleHeaderOk(d, FromLeU32(f[4..8]), FromLe32(f[8..12]), FromLe32(f[12..16]), fates);
    }
    HandleDataOk(d, buf, len, fates);
  }

  // ---- every event, and every run ----

  predicate StepSeparates(s: System, e: Event)
    requires Possible(e)
  {
    Decides(s, e) && Separates(Decider(s, e), e.fates)
  }

  predicate StepStartsBeside(s: System, e: Event)
    requires Possible(e)
  {
    Decides(s, e) && StartsBeside(Decider(s, e), e.fates)
  }

  lemma StepIff(s: System, e: Event)
    requires Grounded(s) && Whole(e)
    ensures Grounded(Step(s, e)) <==> !StepSeparates(s, e)
    ensures RunsPending(s) ==> (RunsPending(Step(s, e)) <==> !StepStartsBeside(s, e))
  {
    hide PollFrame, BootDecide, Structured, ChooseTarget, ImageOk, Separates, StartsBeside, IsBootCmd;
    if Decides(s, e) {
      DecisionStep(s, e);
      BootDecideIff(Decider(s, e), e.fates);
    } else {
      match e
      case Poll(buf, len, fates) =>
        if s.mode == Bootloader {
          PollOk(s.dev, buf, len, fates);
        }
      case Restart(button, fates) =>
      case AppConfirm(fate) =>
        ConfirmStructured(s.dev.meta);
        ConfirmClearsPending(s.dev.meta);
      case Rot(slot, content) =>
    }
  }

  lemma ConfirmClearsPending(m: Option<Record>)
    ensures Confirm(m).Some? ==> Confirm(m).value.pending == NoSlot
  {}

  /** On every run of all-or-nothing writes, slots decaying or not, the structure holds throughout exactly if no boot
      decision meets a stale pending image together with a decayed confirmed one that it marks bad: active equals
      confirmed, a slot is PENDING exactly when it is the pending slot, only the confirmed slot is CONFIRMED, it is
      CONFIRMED or VALID, and the transfer target is never the confirmed slot. */
  lemma StructureHolds(s: System, es: seq<Event>)
    requires forall e :: e in es ==> Possible(e) && Whole(e)
    requires Grounded(s)
    ensures (forall n :: 0 <= n <= |es| ==> Grounded(StateAt(s, es, n)))
            <==> (forall n :: 0 <= n < |es| ==> !StepSeparates(StateAt(s, es, n), es[n]))
  {
    hide Grounded, Step, StepSeparates, RunsPending, StateAt;
    if forall n :: 0 <= n <= |es| ==> Grounded(StateAt(s, es, n)) {
      forall n | 0 <= n < |es| ensures !StepSeparates(StateAt(s, es, n), es[n]) {
        StateNext(s, es, n);
        StepIff(StateAt(s, es, n), es[n]);
      }
    }
    if forall n :: 0 <= n < |es| ==> !StepSeparates(StateAt(s, es, n), es[n]) {
      forall n | 0 <= n <= |es| ensures Grounded(StateAt(s, es, n)) {
        GroundedUpTo(s, es, n);
      }
    }
  }

  lemma {:induction false} GroundedUpTo(s: System, es: seq<Event>, n: nat)
    requires n <= |es| && forall e :: e in es ==> Possible(e) && Whole(e)
    requires Grounded(s) && forall i :: 0 <= i < n ==> !StepSeparates(StateAt(s, es, i), es[i])
    ensures Grounded(StateAt(s, es, n))
  {
    hide Grounded, Step, StepSeparates, RunsPending, StateAt;
    if n == 0 {
      StateEnds(s, es);
    } else {
      GroundedUpTo(s, es, n - 1);
      StateNext(s, es, n - 1);
      StepIff(StateAt(s, es, n - 1), es[n - 1]);
    }
  }

  /** And throughout such a run a running application is the pending one, or nothing is pending, exactly if no boot
      decision starts the confirmed image beside a stale pending one. */
  lemma RunningIsPending(s: System, es: seq<Event>)
    requires forall e :: e in es ==> Possible(e) && Whole(e)
    requires Grounded(s) && RunsPending(s) && forall n :: 0 <= n < |es| ==> !StepSeparates(StateAt(s, es, n), es[n])
    ensures (forall n :: 0 <= n <= |es| ==> RunsPending(StateAt(s, es, n)))
            <==> (forall n :: 0 <= n < |es| ==> !StepStartsBeside(StateAt(s, es, n), es[n]))
  {
    hide Grounded, Step, StepSeparates, StepStartsBeside, RunsPending, StateAt;
    if forall n :: 0 <= n <= |es| ==> RunsPending(StateAt(s, es, n)) {
      forall n | 0 <= n < |es| ensures !StepStartsBeside(StateAt(s, es, n), es[n]) {
        GroundedUpTo(s, es, n);
        StateNext(s, es, n);
        StepIff(StateAt(s, es, n), es[n]);
      }
    }
    if forall n :: 0 <= n < |es| ==> !StepStartsBeside(StateAt(s, es, n), es[n]) {
      forall n | 0 <= n <= |es| ensures RunsPending(StateAt(s, es, n)) {
        RunsPendingUpTo(s, es, n);
      }
    }
  }

  lemma {:induction false} RunsPendingUpTo(s: System, es: seq<Event>, n: nat)
    requires n <= |es| && forall e :: e in es ==> Possible(e) && Whole(e)
    requires Grounded(s) && RunsPending(s)
    requires forall i :: 0 <= i < n ==> !StepSeparates(StateAt(s, es, i), es[i])
    requires forall i :: 0 <= i < n ==> !StepStartsBeside(StateAt(s, es, i), es[i])
    ensures RunsPending(StateAt(s, es, n))
  {
    hide Grounded, Step, StepSeparates, StepStartsBeside, RunsPending, StateAt;
    if n == 0 {
      StateEnds(s, es);
    } else {
      RunsPendingUpTo(s, es, n - 1);
      GroundedUpTo(s, es, n - 1);
      StateNext(s, es, n - 1);
      StepIff(StateAt(s, es, n - 1), es[n - 1]);
    }
  }
}
