/** Once an image is confirmed the device always has an image to boot: which runs guarantee it, and exactly
    what breaks it. */
module Safety {
  import opened Bytes
  import opened Crc32
  import opened Protocol
  import opened Metadata
  import opened DeviceModel
  import opened SlotInvariant
  import opened BootSystem
  import MetaStore

  ghost predicate ConfirmedSound(d: Device) {
    ConfirmedOf(d) != NoSlot ==> Sound(d, ConfirmedOf(d))
  }

  /** What the safety claims rest on: the structure holds and the confirmed image, if any, is sound. */
  ghost predicate Guarded(s: System) {
    Grounded(s) && ConfirmedSound(s.dev)
  }

  ghost predicate SameImage(d: Device, e: Device, slot: SlotId)
    requires slot != NoSlot
  {
    var i, j := LoadOrDefault(d.meta).Info(slot), LoadOrDefault(e.meta).Info(slot);
    d.Slot(slot) == e.Slot(slot) && i.size == j.size && i.crc == j.crc
  }

  /** Whatever the state, a boot decision jumps only to a slot whose content matches its record. */
  lemma JumpIsVerified(d: Device, fates: Fates)
    ensures var o := BootDecide(d, fates);
            o.jump != NoSlot ==>
              var i := o.device.ctrl.Info(o.jump);
              && o.device.a == d.a && o.device.b == d.b && 0 < i.size <= |d.Slot(o.jump)| && i.crc != 0
              && Crc(d.Slot(o.jump)[..i.size], 0) == i.crc
  {
    hide Crc, DecrementAttempts, MarkBad;
  }

  /** The pending image has attempts left, matches its record, and its trial can be counted. */
  predicate Startable(d: Device, fates: Fates) {
    && PendingOf(d) != NoSlot && LoadOrDefault(d.meta).Info(PendingOf(d)).attempts > 0 && Sound(d, PendingOf(d))
    && fates.decrement == MetaStore.Written
  }

  lemma TryPendingStarts(d: Device, fates: Fates)
    requires MetaOk(d.meta) && d.meta.Some? && d.ctrl == d.meta.value && AllOrNothing(fates)
    ensures var o, c := TryPending(d, fates), ConfirmedOf(d);
            && o.jump == (if Startable(d, fates) then PendingOf(d) else NoSlot)
            && o.sent == (if o.jump == NoSlot then [] else [Status(Ok, d.state, Number(SlotNumber(o.jump)))])
            && o.device.a == d.a && o.device.b == d.b && o.device.state == d.state
            && (o.jump == NoSlot ==>
                  && o.device.meta.Some? && o.device.ctrl == o.device.meta.value && ConfirmedOf(o.device) == c
                  && (c != NoSlot ==> o.device.ctrl.Info(c) == d.ctrl.Info(c)))
  {
    hide ImageOk;
  }

  lemma TryConfirmedStarts(d: Device, fates: Fates)
    requires d.meta.Some? && d.ctrl == d.meta.value
    ensures var o, c := TryConfirmed(d, fates), ConfirmedOf(d);
            && o.jump == (if c != NoSlot && Sound(d, c) then c else NoSlot)
            && o.sent == [if o.jump == NoSlot then Status(BootErr, d.state, Number(0))
                          else Status(Ok, d.state, Number(SlotNumber(o.jump)))]
  {
    hide ImageOk, MarkBad;
  }

  /** What a boot decision starts: the pending image if it can be, else the confirmed one if it matches its record, else
      nothing; and it says so, with the slot's number or with BOOT_ERR. */
  lemma BootDecideStarts(d: Device, fates: Fates)
    requires MetaOk(d.meta) && AllOrNothing(fates)
    ensures var o, p, c := BootDecide(d, fates), PendingOf(d), ConfirmedOf(d);
            && o.jump == (if Startable(d, fates) then p else if c != NoSlot && Sound(d, c) then c else NoSlot)
            && (StartsTrial(d, fates) <==> Startable(d, fates))
            && (o.jump != NoSlot ==> o.sent == [Status(Ok, d.state, Number(SlotNumber(o.jump)))])
            && (o.jump == NoSlot && d.meta.Some? ==> o.sent == [Status(BootErr, d.state, Number(0))])
            && (d.meta.None? ==> o == Outcome(d.Refreshed(), [], NoSlot))
  {
    if d.meta.Some? {
      TryPendingStarts(d.Refreshed(), fates);
      hide ImageOk, TryPending, TryConfirmed, Structured;
      if !Startable(d, fates) {
        TryConfirmedStarts(TryPending(d.Refreshed(), fates).device, fates);
      }
    }
  }

  lemma TryPendingKeepsPending(d: Device, fates: Fates)
    requires d.meta.Some? && d.ctrl == d.meta.value
    ensures var o := TryPending(d, fates);
            o.jump != NoSlot ==> SameImage(d, o.device, o.jump) && Sound(d, o.jump)
  {
    hide ImageOk;
  }

  lemma SoundKept(d: Device, e: Device, slot: SlotId)
    requires slot != NoSlot && SameImage(d, e, slot) && Sound(d, slot)
    ensures Sound(e, slot)
  {
    hide ImageOk;
  }

  /** A boot decision with a sound confirmed image, or none, keeps all that the claims rest on whatever record write
      fails, and starts a sound image if one is confirmed. */
  lemma BootDecideSafe(d: Device, fates: Fates)
    requires DeviceOk(d) && !InTransfer(d) && ConfirmedSound(d) && AllOrNothing(fates)
    ensures var o := BootDecide(d, fates);
            && Guarded(Land(o)) && ConfirmedKept(d, o.device) && ConfirmedOf(o.device) == ConfirmedOf(d)
            && (ConfirmedOf(d) != NoSlot ==> o.jump != NoSlot)
            && (o.jump != NoSlot ==> Sound(o.device, o.jump))
  {
    BootDecideIff(d, fates);
    if d.meta.Some? {
      var loaded := d.Refreshed();
      var first := TryPending(loaded, fates);
      TryPendingStructured(loaded, fates);
      TryPendingKeepsPending(loaded, fates);
      if ConfirmedOf(d) != NoSlot {
        TryPendingKeepsConfirmedInfo(loaded, fates);
        hide ImageOk, Structured, StateAgrees, TryPending;
        SoundKept(loaded, first.device, ConfirmedOf(d));
      }
      hide ImageOk, Structured, StateAgrees, TryPending;
      if first.jump != NoSlot {
        SoundKept(loaded, first.device, first.jump);
      }
    }
  }

  // ---- one event ----

  /** The confirmed slot is neither erased nor programmed, and its record keeps size and checksum. */
  ghost predicate ConfirmedKept(d: Device, e: Device) {
    ConfirmedOf(d) != NoSlot ==> ConfirmedOf(e) == ConfirmedOf(d) && SameImage(d, e, ConfirmedOf(d))
  }

  lemma HandleEndSafe(d: Device, fates: Fates)
    requires DeviceOk(d) && d.state == WaitEnd && AllOrNothing(fates) && ConfirmedSound(d)
    ensures var o := HandleEnd(d, fates); ConfirmedKept(d, o.device) && ConfirmedSound(o.device) && o.jump == NoSlot
  {
    TargetIsNotConfirmed(d);
    hide ImageOk, Structured, ChooseTarget, SetPending, DeviceOk;
    var s := d.session;
    SetPendingKeepsOthers(d.meta, d.target, s.imageVersion, s.imageSize, s.imageCrc);
    if ConfirmedOf(d) != NoSlot {
      assert ConfirmedOf(d) == Other(d.target);
      SoundKept(d, HandleEnd(d, fates).device, ConfirmedOf(d));
    }
  }

  lemma TargetIsNotConfirmed(d: Device)
    requires DeviceOk(d) && InTransfer(d)
    ensures d.target != NoSlot && d.target != ConfirmedOf(d)
  {
    DefaultStructured();
    StructuredFacts(LoadOrDefault(d.meta));
  }

  lemma SetPendingKeepsOthers(m: Option<Record>, slot: SlotId, version: bv32, size: u32, crc: bv32)
    ensures var r, change := LoadOrDefault(m), SetPending(m, slot, version, size, crc, MAX_BOOT_ATTEMPTS);
            change.Some? ==>
              change.value.confirmed == r.confirmed && change.value.Info(Other(slot)) == r.Info(Other(slot))
  {}

  lemma HandleCmdSafe(d: Device, cmd: byte, fates: Fates)
    requires DeviceOk(d) && ConfirmedSound(d) && AllOrNothing(fates) && !(d.state == Idle && cmd == CMD_BOOT)
    ensures var o := HandleCmd(d, cmd, fates);
            ConfirmedKept(d, o.device) && ConfirmedSound(o.device) && o.jump == NoSlot
  {
    hide ImageOk, Structured, StateAgrees, ChooseTarget, BootDecide, HandleEnd;
    if d.state == WaitEnd && cmd == CMD_END {
      HandleEndSafe(d, fates);
    }
  }

  lemma TransferKeepsConfirmed(d: Device, o: Outcome)
    requires DeviceOk(d) && ConfirmedSound(d) && InTransfer(d) && SameMeta(d, o)
    ensures ConfirmedKept(d, o.device) && ConfirmedSound(o.device)
  {
    TargetIsNotConfirmed(d);
    hide ImageOk, Structured, ChooseTarget, DeviceOk;
    if ConfirmedOf(d) != NoSlot {
      SoundKept(d, o.device, ConfirmedOf(d));
    }
  }

  lemma HandleHeaderSafe(d: Device, size: u32, crc: bv32, version: bv32, fates: Fates)
    requires DeviceOk(d) && ConfirmedSound(d)
    ensures var o := HandleHeader(d, size, crc, version, fates);
            ConfirmedKept(d, o.device) && ConfirmedSound(o.device) && o.jump == NoSlot
  {
    HandleHeaderOk(d, size, crc, version, fates);
    var o := HandleHeader(d, size, crc, version, fates);
    if d.state == WaitHeader {
      TransferKeepsConfirmed(d, o);
    }
  }

  lemma HandleDataSafe(d: Device, buf: seq<byte>, len: nat, fates: Fates)
    requires DeviceOk(d) && ConfirmedSound(d) && |buf| == MAX_FRAME && len <= MAX_FRAME
    ensures var o := HandleData(d, buf, len, fates);
            ConfirmedKept(d, o.device) && ConfirmedSound(o.device) && o.jump == NoSlot
  {
    HandleDataOk(d, buf, len, fates);
    var o := HandleData(d, buf, len, fates);
    if d.state == RecvData {
      hide AcceptChunk, DataFault, FromLe16, FromLeU32, DeviceOk, HandleData;
      TransferKeepsConfirmed(d, o);
    }
  }

  lemma PollSafe(d: Device, buf: seq<byte>, len: nat, fates: Fates)
    requires DeviceOk(d) && ConfirmedSound(d) && |buf| == MAX_FRAME && 0 < len <= MAX_FRAME
    requires AllOrNothing(fates) && !IsBootCmd(d, buf, len)
    ensures var o := PollFrame(d, buf, len, fates); Guarded(Land(o)) && ConfirmedKept(d, o.device)
  {
    PollOk(d, buf, len, fates);
    PollCases(d, buf, len, fates);
    var f, o := buf[..len], PollFrame(d, buf, len, fates);
    hide CrcOk, ImageOk, DeviceOk, HandleCmd, HandleHeader, HandleData, FromLeU32, FromLe32, PollFrame;
    if len == 13 && !(d.state == Idle && f[4] == CMD_BOOT) {
      HandleCmdSafe(d, f[4], fates);
    }
    if len == 21 {
      HandleHeaderSafe(d, FromLeU32(f[4..8]), FromLe32(f[8..12]), FromLe32(f[12..16]), fates);
    }
    HandleDataSafe(d, buf, len, fates);
  }

  /** The running application confirms a pending image that is not sound. */
  ghost predicate ConfirmsUnsound(s: System, e: Event) {
    && e.AppConfirm? && MetaStore.TakesEffect(e.fate) && s.mode.Running?
    && PendingOf(s.dev) != NoSlot && !Sound(s.dev, PendingOf(s.dev))
  }

  /** An event keeps the confirmed slot's bytes and, unless it is a confirm, which slot is confirmed; a confirm
      confirms the pending slot; and the claims survive exactly unless that image is not sound. */
  lemma StepSafe(s: System, e: Event)
    requires Guarded(s) && Whole(e) && !e.Rot?
    ensures Guarded(Step(s, e)) <==> !ConfirmsUnsound(s, e)
    ensures var c, t := ConfirmedOf(s.dev), Step(s, e);
            && (c != NoSlot ==> ConfirmedOf(t.dev) != NoSlot && t.dev.Slot(c) == s.dev.Slot(c))
            && (!e.AppConfirm? ==> ConfirmedKept(s.dev, t.dev))
            && (e.AppConfirm? && ConfirmedOf(t.dev) != c ==>
                  ConfirmedOf(t.dev) == PendingOf(s.dev) && (RunsPending(s) ==> s.mode == Running(ConfirmedOf(t.dev))))
  {
    hide ImageOk, PollFrame, BootDecide, Structured, StateAgrees, ChooseTarget, IsBootCmd;
    if Decides(s, e) {
      DecisionStep(s, e);
      BootDecideSafe(Decider(s, e), e.fates);
    } else {
      match e
      case Poll(buf, len, fates) =>
        if s.mode == Bootloader {
          PollSafe(s.dev, buf, len, fates);
        }
      case Restart(button, fates) =>
      case AppConfirm(fate) =>
        ConfirmSafe(s, fate);
    }
  }

  lemma ConfirmSafe(s: System, fate: MetaStore.Fate)
    requires Guarded(s) && !fate.Torn?
    ensures var t, c := Step(s, AppConfirm(fate)), ConfirmedOf(s.dev);
            && (Guarded(t) <==> !ConfirmsUnsound(s, AppConfirm(fate))) && t.dev.a == s.dev.a && t.dev.b == s.dev.b
            && (c != NoSlot ==> ConfirmedOf(t.dev) != NoSlot)
            && (ConfirmedOf(t.dev) != c ==>
                  ConfirmedOf(t.dev) == PendingOf(s.dev) && (RunsPending(s) ==> s.mode == Running(ConfirmedOf(t.dev))))
  {
    ConfirmStructured(s.dev.meta);
    hide ImageOk, Structured, ConfirmedKept;
  }

  // ---- whole runs ----

  /** On every run of frames, aborted and failed sessions, restarts and application confirms with all-or-nothing
      record writes, the confirmed image is sound and the structure holds throughout exactly if the application never
      confirms a pending image that is not sound. */
  lemma ConfirmedForever(s: System, es: seq<Event>)
    requires forall e :: e in es ==> Possible(e) && Whole(e) && !e.Rot?
    requires Guarded(s)
    ensures (forall n :: 0 <= n <= |es| ==> Guarded(StateAt(s, es, n)))
            <==> (forall n :: 0 <= n < |es| ==> !ConfirmsUnsound(StateAt(s, es, n), es[n]))
  {
    hide Guarded, Step, ConfirmsUnsound, StateAt, ConfirmedKept;
    if forall n :: 0 <= n <= |es| ==> Guarded(StateAt(s, es, n)) {
      forall n | 0 <= n < |es| ensures !ConfirmsUnsound(StateAt(s, es, n), es[n]) {
        StateNext(s, es, n);
        StepSafe(StateAt(s, es, n), es[n]);
      }
    }
    if forall n :: 0 <= n < |es| ==> !ConfirmsUnsound(StateAt(s, es, n), es[n]) {
      forall n | 0 <= n <= |es| ensures Guarded(StateAt(s, es, n)) {
        GuardedUpTo(s, es, n);
      }
    }
  }

  lemma {:induction false} GuardedUpTo(s: System, es: seq<Event>, n: nat)
    requires n <= |es| && forall e :: e in es ==> Possible(e) && Whole(e) && !e.Rot?
    requires Guarded(s) && forall i :: 0 <= i < n ==> !ConfirmsUnsound(StateAt(s, es, i), es[i])
    ensures Guarded(StateAt(s, es, n))
    ensures ConfirmedOf(s.dev) != NoSlot ==> ConfirmedOf(StateAt(s, es, n).dev) != NoSlot
  {
    hide Guarded, Step, ConfirmsUnsound, StateAt, ConfirmedKept;
    if n == 0 {
      StateEnds(s, es);
    } else {
      GuardedUpTo(s, es, n - 1);
      StateNext(s, es, n - 1);
      StepSafe(StateAt(s, es, n - 1), es[n - 1]);
    }
  }

  /** Until the application confirms, the confirmed slot keeps its bytes, its size and its checksum over the whole
      run, whatever all-or-nothing write fails. */
  lemma {:induction false} ConfirmedImageKept(s: System, es: seq<Event>)
    requires forall e :: e in es ==> Possible(e) && Whole(e) && !e.Rot? && !e.AppConfirm?
    requires Guarded(s)
    ensures Guarded(Run(s, es)) && ConfirmedKept(s.dev, Run(s, es).dev)
  {
    hide Guarded, Step, ConfirmsUnsound;
    if es != [] {
      ConfirmedImageKept(s, es[..|es| - 1]);
      StepSafe(Run(s, es[..|es| - 1]), es[|es| - 1]);
      NotAConfirm(Run(s, es[..|es| - 1]), es[|es| - 1]);
    }
  }

  lemma NotAConfirm(s: System, e: Event)
    ensures !e.AppConfirm? ==> !ConfirmsUnsound(s, e)
  {}

  /** Once an image is confirmed, after any run in which the application confirms only sound images every restart
      without the button starts an image that matches its record, whatever all-or-nothing write fails on the way or in
      that restart. */
  lemma AlwaysBootable(s: System, es: seq<Event>, fates: Fates)
    requires forall e :: e in es ==> Possible(e) && Whole(e) && !e.Rot?
    requires Guarded(s) && ConfirmedOf(s.dev) != NoSlot && AllOrNothing(fates)
    requires forall n :: 0 <= n < |es| ==> !ConfirmsUnsound(StateAt(s, es, n), es[n])
    ensures var t := Step(Run(s, es), Restart(false, fates));
            t.mode.Running? && t.mode.slot != NoSlot && Sound(t.dev, t.mode.slot)
  {
    GuardedUpTo(s, es, |es|);
    StateEnds(s, es);
    hide ConfirmsUnsound, StateAt, DeviceOk, ImageOk, BootDecide, Run;
    BootedOk(Run(s, es));
    BootDecideSafe(Booted(Run(s, es).dev), fates);
  }

  lemma BootedOk(s: System)
    requires Guarded(s)
    ensures DeviceOk(Booted(s.dev)) && ConfirmedSound(Booted(s.dev)) && !InTransfer(Booted(s.dev))
    ensures ConfirmedOf(Booted(s.dev)) == ConfirmedOf(s.dev) && PendingOf(Booted(s.dev)) == PendingOf(s.dev)
  {
    hide ImageOk;
  }

  /** A device without a readable record, as it leaves production, is where every such run may start. */
  lemma BlankIsSafe(d: Device, mode: Mode)
    requires d.WellFormed() && d.meta.None? && d.state == Idle
    ensures Guarded(System(d, mode)) && RunsPending(System(d, mode))
  {
    DefaultStructured();
  }

  // ---- the previous image, when the confirmed one decays ----

  /** The confirmed image has decayed, and the other slot still holds a sound one in state VALID. */
  ghost predicate Decayed(d: Device) {
    && ConfirmedOf(d) != NoSlot && !Sound(d, ConfirmedOf(d))
    && LoadOrDefault(d.meta).Info(Other(ConfirmedOf(d))).state == Valid && Sound(d, Other(ConfirmedOf(d)))
  }

  /** The decision that finds the confirmed image decayed starts nothing and hands over to the other slot, exactly if
      marking the decayed one bad took effect. */
  lemma DecayFound(d: Device, fates: Fates)
    requires DeviceOk(d) && !InTransfer(d) && Decayed(d) && AllOrNothing(fates)
    ensures var o, c := BootDecide(d, fates), ConfirmedOf(d);
            && o.jump == NoSlot && !Separates(d, fates)
            && (if MetaStore.TakesEffect(fates.badConfirmed)
                then ConfirmedOf(o.device) == Other(c) && Sound(o.device, Other(c))
                else o.device.meta == d.meta)
            && o.device.a == d.a && o.device.b == d.b && o.device.state == d.state
  {
    hide ImageOk;
    assert PendingOf(d) == NoSlot;
  }

  /** A boot decision starts the confirmed image exactly if it starts no trial, when the confirmed image is sound. */
  lemma StartsConfirmedIff(d: Device, fates: Fates)
    requires DeviceOk(d) && !InTransfer(d) && ConfirmedOf(d) != NoSlot && ConfirmedSound(d) && AllOrNothing(fates)
    ensures BootDecide(d, fates).jump == ConfirmedOf(d) <==> !StartsTrial(d, fates)
  {
    var loaded := d.Refreshed();
    var first := TryPending(loaded, fates);
    StructuredFacts(d.meta.value);
    TryPendingStructured(loaded, fates);
    TryPendingKeepsConfirmedInfo(loaded, fates);
    hide ImageOk, Structured, StateAgrees, TryPending, TryConfirmed;
    SoundKept(loaded, first.device, ConfirmedOf(d));
    if first.jump == NoSlot {
      TryConfirmedStructuredIff(first.device, fates);
    }
  }

  /** The first decision, by a restart or a BOOT frame, with the mark-bad write in effect: the device stays in the
      bootloader, and the previous image is the confirmed one. */
  lemma PreviousImageConfirmed(s: System, e: Event)
    requires Grounded(s) && Decayed(s.dev) && Whole(e) && Decides(s, e) && MetaStore.TakesEffect(e.fates.badConfirmed)
    ensures var t, c := Step(s, e), Other(ConfirmedOf(s.dev));
            t.mode == Bootloader && Guarded(t) && ConfirmedOf(t.dev) == c && t.dev.Slot(c) == s.dev.Slot(c)
  {
    var d := Decider(s, e);
    DecisionStep(s, e);
    DeciderDecayed(s, e);
    DecayFound(d, e.fates);
    BootDecideIff(d, e.fates);
    hide ImageOk, BootDecide, DeviceOk, Decides, Decayed, Separates, StartsBeside;
  }

  lemma DeciderDecayed(s: System, e: Event)
    requires Grounded(s) && Whole(e) && Decides(s, e)
    ensures var d := Decider(s, e);
            && DeviceOk(d) && !InTransfer(d) && ConfirmedOf(d) == ConfirmedOf(s.dev)
            && (Decayed(s.dev) ==> Decayed(d)) && (ConfirmedSound(s.dev) ==> ConfirmedSound(d))
  {
    hide ImageOk, CrcOk, Structured, ChooseTarget;
  }

  /** The second decision of a run starts a sound image, and it is the one of slot c, byte for byte, exactly unless it
      starts the trial of a newer one. */
  ghost predicate StartsPrevious(s: System, t: System, es: seq<Event>, e: Event, c: SlotId)
    requires c != NoSlot && (forall x :: x in es ==> Possible(x)) && Possible(e)
  {
    var u := Run(t, es);
    Decides(u, e) ==>
      var v := Step(u, e);
      && v.mode.Running? && v.mode.slot != NoSlot && Sound(v.dev, v.mode.slot)
      && (v.mode.slot == c <==> !StartsTrial(Decider(u, e), e.fates))
      && ConfirmedOf(v.dev) == c && v.dev.Slot(c) == s.dev.Slot(c)
  }

  /** All events but decay and confirms, with all-or-nothing writes. */
  predicate Undisturbed(es: seq<Event>) {
    forall e :: e in es ==> Possible(e) && Whole(e) && !e.Rot? && !e.AppConfirm?
  }

  /** Whatever frames, sessions and restarts come between the two decisions: once marking the decayed image bad took
      effect, the next decision boots the previous image, or the trial of an image downloaded since. */
  lemma PreviousImageBooted(s: System, first: Event, es: seq<Event>, second: Event)
    requires Grounded(s) && Decayed(s.dev) && Whole(first) && Decides(s, first)
    requires MetaStore.TakesEffect(first.fates.badConfirmed) && Undisturbed(es) && Whole(second)
    ensures StartsPrevious(s, Step(s, first), es, second, Other(ConfirmedOf(s.dev)))
  {
    var t, c := Step(s, first), Other(ConfirmedOf(s.dev));
    hide ImageOk, BootDecide, DeviceOk, Decides, Decayed, Step, StartsTrial;
    PreviousImageConfirmed(s, first);
    ConfirmedImageKept(t, es);
    var u := Run(t, es);
    hide Run;
    if Decides(u, second) {
      SecondDecision(u, second, c);
    }
  }

  lemma SecondDecision(u: System, e: Event, c: SlotId)
    requires Guarded(u) && c != NoSlot && ConfirmedOf(u.dev) == c && Whole(e) && Decides(u, e)
    ensures var v := Step(u, e);
            && v.mode.Running? && v.mode.slot != NoSlot && Sound(v.dev, v.mode.slot)
            && (v.mode.slot == c <==> !StartsTrial(Decider(u, e), e.fates))
            && ConfirmedOf(v.dev) == c && v.dev.Slot(c) == u.dev.Slot(c)
  {
    var d := Decider(u, e);
    DecisionStep(u, e);
    DeciderDecayed(u, e);
    BootDecideSafe(d, e.fates);
    StartsConfirmedIff(d, e.fates);
    hide ImageOk, BootDecide, DeviceOk, Decides, Structured, StartsTrial;
  }

  /** And for every such run exactly if it took effect: if not, already the decision that follows at once starts
      nothing. */
  lemma PreviousImageIff(s: System, first: Event)
    requires Grounded(s) && Decayed(s.dev) && Whole(first) && Decides(s, first)
    ensures MetaStore.TakesEffect(first.fates.badConfirmed) <==>
              forall es, second | Undisturbed(es) && Whole(second) ::
                StartsPrevious(s, Step(s, first), es, second, Other(ConfirmedOf(s.dev)))
  {
    var t, c := Step(s, first), Other(ConfirmedOf(s.dev));
    hide ImageOk, BootDecide, DeviceOk, Decides, Decayed, Step, StartsPrevious;
    if MetaStore.TakesEffect(first.fates.badConfirmed) {
      forall es, second | Undisturbed(es) && Whole(second)
        ensures StartsPrevious(s, t, es, second, c)
      {
        PreviousImageBooted(s, first, es, second);
      }
    } else {
      LostMarkStartsNothing(s, first);
    }
  }

  const SMOOTH_RESTART := Restart(false, SMOOTH)

  lemma LostMarkStartsNothing(s: System, first: Event)
    requires Grounded(s) && Decayed(s.dev) && Whole(first) && Decides(s, first)
    requires !MetaStore.TakesEffect(first.fates.badConfirmed)
    ensures Whole(SMOOTH_RESTART) && !StartsPrevious(s, Step(s, first), [], SMOOTH_RESTART, Other(ConfirmedOf(s.dev)))
    ensures Step(s, first).mode == Bootloader && Step(s, first).dev.meta == s.dev.meta
  {
    var d := Decider(s, first);
    DecisionStep(s, first);
    DeciderDecayed(s, first);
    DecayFound(d, first.fates);
    BootDecideIff(d, first.fates);
    var t := Step(s, first);
    assert Run(t, []) == t;
    hide ImageOk, BootDecide, DeviceOk;
    DecisionStep(t, SMOOTH_RESTART);
    assert Decayed(Booted(t.dev));
    DeciderDecayed(t, SMOOTH_RESTART);
    DecayFound(Booted(t.dev), SMOOTH);
  }

  // ---- power cuts inside a boot decision ----

  /** The records stored on the way through a boot decision: before it, after counting the trial, after the pending slot
      was dealt with, and at the end. */
  ghost predicate PassesThrough(d: Device, fates: Fates, m: Option<Record>) {
    var loaded := d.Refreshed();
    var slot := loaded.ctrl.pending;
    || m == d.meta
    || (slot != NoSlot && Bootable(loaded.ctrl, slot) && loaded.ctrl.Info(slot).attempts != 0
        && Verifies(loaded, slot, loaded.ctrl.Info(slot).size, loaded.ctrl.Info(slot).crc)
        && m == MetaStore.AfterOperation(d.meta, DecrementAttempts(d.meta), fates.decrement))
    || m == TryPending(loaded, fates).device.meta
    || m == BootDecide(d, fates).device.meta
  }

  /** Wherever a boot decision is cut, it leaves the record it found or one that an uncut decision leaves: runs with
      restarts between events cover restarts inside a boot decision too. */
  lemma CutBootCovered(d: Device, fates: Fates, m: Option<Record>)
    requires AllOrNothing(fates) && PassesThrough(d, fates, m)
    ensures m == d.meta || exists f :: AllOrNothing(f) && BootDecide(d, f).device.meta == m
  {
    hide ImageOk, MarkBad, DecrementAttempts;
    var counted := fates.(decrement := MetaStore.Written);
    var unmarked := fates.(badConfirmed := MetaStore.Kept);
    if m != d.meta && d.meta.Some? {
      if m == BootDecide(d, fates).device.meta {
      } else if m == TryPending(d.Refreshed(), fates).device.meta {
        UnmarkedLeaves(d, fates);
        assert BootDecide(d, unmarked).device.meta == m;
      } else {
        CountedLeaves(d, fates);
        assert BootDecide(d, counted).device.meta == m;
      }
    }
  }

  lemma UnmarkedLeaves(d: Device, fates: Fates)
    requires d.meta.Some?
    ensures BootDecide(d, fates.(badConfirmed := MetaStore.Kept)).device.meta
            == TryPending(d.Refreshed(), fates).device.meta
  {
    hide ImageOk, DecrementAttempts;
  }

  lemma CountedLeaves(d: Device, fates: Fates)
    requires d.meta.Some? && PendingOf(d) != NoSlot && AllOrNothing(fates)
    requires var l, slot := d.Refreshed(), PendingOf(d);
             && Bootable(l.ctrl, slot) && l.ctrl.Info(slot).attempts != 0
             && Verifies(l, slot, l.ctrl.Info(slot).size, l.ctrl.Info(slot).crc)
    ensures var change := DecrementAttempts(d.meta);
            var m := MetaStore.AfterOperation(d.meta, change, fates.decrement);
            m == d.meta || m == BootDecide(d, fates.(decrement := MetaStore.Written)).device.meta
  {
    hide ImageOk, MarkBad, DecrementAttempts;
  }

  // ---- what a confirm after a boot confirms ----

  /** After a boot, a successful application confirm confirms the image that is running exactly unless the pending
      image was stale; and it leaves an unsound image confirmed exactly if that stale image was unsound. */
  lemma ConfirmAfterBootIff(d: Device, fates: Fates)
    requires DeviceOk(d) && !InTransfer(d) && ConfirmedOf(d) != NoSlot && ConfirmedSound(d) && AllOrNothing(fates)
    ensures var t := Land(BootDecide(d, fates));
            var u := Step(t, AppConfirm(MetaStore.Written));
            && t.mode.Running?
            && (ConfirmedOf(u.dev) == t.mode.slot <==> !StalePending(d, fates))
            && (ConfirmedSound(u.dev) <==> !(StalePending(d, fates) && !Sound(d, PendingOf(d))))
  {
    BootSplits(d, fates);
    var t := Land(BootDecide(d, fates));
    hide ImageOk, Structured, StateAgrees, BootDecide, StalePending;
    if PendingOf(t.dev) != NoSlot {
      SoundAfterConfirm(t, PendingOf(t.dev));
    }
  }

  /** A boot with a sound confirmed image starts the trial image, or the confirmed one with nothing left pending unless
      the pending image was stale. */
  lemma BootSplits(d: Device, fates: Fates)
    requires DeviceOk(d) && !InTransfer(d) && ConfirmedOf(d) != NoSlot && ConfirmedSound(d) && AllOrNothing(fates)
    ensures var t := Land(BootDecide(d, fates));
            && t.mode.Running? && t.dev.meta.Some? && ConfirmedOf(t.dev) == ConfirmedOf(d) && ConfirmedSound(t.dev)
            && (if StalePending(d, fates) then
                  t.mode.slot == ConfirmedOf(d) && PendingOf(t.dev) == PendingOf(d) && PendingOf(d) != ConfirmedOf(d)
                  && (Sound(t.dev, PendingOf(d)) <==> Sound(d, PendingOf(d)))
                else
                  (t.mode.slot == PendingOf(t.dev) && Sound(t.dev, PendingOf(t.dev)))
                  || (t.mode.slot == ConfirmedOf(d) && PendingOf(t.dev) == NoSlot))
  {
    var loaded := d.Refreshed();
    var first := TryPending(loaded, fates);
    TryPendingStructured(loaded, fates);
    TryPendingLeaves(loaded, fates);
    TryPendingKeepsConfirmedInfo(loaded, fates);
    if StalePending(loaded, fates) {
      TryPendingKeepsStale(loaded, fates);
    }
    TryPendingKeepsPending(loaded, fates);
    StructuredFacts(d.meta.value);
    hide ImageOk, Structured, StateAgrees, TryPending;
    SoundKept(loaded, first.device, ConfirmedOf(d));
    if first.jump != NoSlot {
      SoundKept(loaded, first.device, first.jump);
    }
  }

  lemma TryPendingKeepsStale(d: Device, fates: Fates)
    requires DeviceOk(d) && d.meta.Some? && d.ctrl == d.meta.value && AllOrNothing(fates) && StalePending(d, fates)
    ensures SameImage(d, TryPending(d, fates).device, PendingOf(d))
  {
    hide ImageOk;
  }

  lemma SoundAfterConfirm(t: System, slot: SlotId)
    requires t.mode.Running? && t.dev.meta.Some? && PendingOf(t.dev) == slot != NoSlot
    ensures var u := Step(t, AppConfirm(MetaStore.Written));
            ConfirmedOf(u.dev) == slot && (Sound(u.dev, slot) <==> Sound(t.dev, slot))
  {
    hide ImageOk;
  }

  /** A boot decision separates active from confirmed exactly when the stale pending image meets a decayed confirmed
      one that is then marked bad. */
  lemma BootKeepsActiveConfirmedIff(d: Device, fates: Fates)
    requires DeviceOk(d) && !InTransfer(d) && AllOrNothing(fates)
    ensures var m := LoadOrDefault(BootDecide(d, fates).device.meta);
            m.active == m.confirmed <==> !Separates(d, fates)
  {
    if d.meta.Some? {
      var loaded := d.Refreshed();
      var first := TryPending(loaded, fates);
      TryPendingStructured(loaded, fates);
      TryPendingLeaves(loaded, fates);
      if ConfirmedOf(d) != NoSlot {
        TryPendingKeepsConfirmedInfo(loaded, fates);
        StructuredPending(first.device.meta.value);
        MarkBadKeepsActiveConfirmedIff(first.device.meta.value, ConfirmedOf(d));
      }
      hide ImageOk, Structured, StateAgrees, TryPending;
    }
  }

  lemma StructuredPending(m: Record)
    requires Structured(m) && m.confirmed != NoSlot
    ensures m.active == m.confirmed && (m.Info(Other(m.confirmed)).state == Pending <==> m.pending != NoSlot)
  {}
}
