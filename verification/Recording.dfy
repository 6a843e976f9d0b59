/** How a slot's record comes about: what END records of a download, and what confirming or marking bad makes of it. */
module Recording {
  import opened Bytes
  import opened Crc32
  import opened Protocol
  import opened Metadata
  import opened DeviceModel
  import opened SlotInvariant
  import opened BootSystem
  import opened Safety
  import opened Transfer
  import MetaStore
  import TrialBoots

  // ---- END ----

  /** The bytes received are the image announced: as many, and with its checksum. */
  predicate ImageArrived(d: Device)
    requires d.target != NoSlot
  {
    var s, slot := d.session, d.Slot(d.target);
    0 < s.imageSize == s.receivedSize <= |slot| && Crc(slot[..s.imageSize], 0) == s.imageCrc
  }

  /** END is answered with OK exactly if the image announced has arrived, its checksum and version are not zero and the
      record was written. */
  lemma EndOkIff(d: Device, fates: Fates)
    requires d.state == WaitEnd && d.target != NoSlot
    ensures var o := HandleCmd(d, CMD_END, fates);
            && |o.sent| == 1 && o.sent[0].Status? && o.jump == NoSlot
            && (o.sent[0].code == Ok <==> ImageArrived(d) && d.session.imageCrc != 0 && d.session.imageVersion != 0
                                          && fates.setPending == MetaStore.Written)
            && (ImageArrived(d) && d.session.imageCrc != 0 && o.sent[0].code != Ok ==> o.sent[0].code == FlashErr)
            && o.device.state == (if o.sent[0].code == Ok then Idle else Error)
  {
    hide Crc;
  }

  /** All announced bytes arrived, but not with the announced checksum, or that is zero: the answer is BAD_CRC, and
      nothing but the engine's state has changed. */
  lemma CorruptedImageRefused(d: Device, fates: Fates)
    requires d.state == WaitEnd && d.target != NoSlot && d.session.receivedSize == d.session.imageSize
    requires !ImageArrived(d) || d.session.imageCrc == 0
    ensures HandleCmd(d, CMD_END, fates)
            == Outcome(d.(state := Error), [Status(BadCrc, Error, Checksum(d.session.imageCrc))], NoSlot)
  {
    hide Crc;
  }

  /** The record names the image announced as pending in the target slot, with three attempts, and the slot's content
      agrees with it; of the rest only what was stored for the slot before is gone. */
  ghost predicate Recorded(d: Device, e: Device) {
    var s, before := d.session, LoadOrDefault(d.meta);
    && d.target != NoSlot && e.meta.Some? && e.a == d.a && e.b == d.b
    && (var m := e.meta.value;
        && m.pending == d.target && m.active == before.active && m.confirmed == before.confirmed
        && m.Info(Other(d.target)) == before.Info(Other(d.target))
        && m.Info(d.target)
           == SlotInfo(s.imageVersion, s.imageSize, s.imageCrc, Pending, 3, before.Info(d.target).reserved))
    && ImageArrived(d) && Sound(e, d.target)
  }

  lemma EndRecords(d: Device, fates: Fates)
    requires d.state == WaitEnd && d.target != NoSlot && !fates.setPending.Torn?
    ensures var o := HandleCmd(d, CMD_END, fates);
            && (o.device.meta != d.meta ==> Recorded(d, o.device))
            && (o.sent[0].Status? && o.sent[0].code == Ok ==> Recorded(d, o.device))
  {
    hide Crc;
  }

  /** Whatever poll other than a boot decision changes the record, it was END, and the image it records has arrived. */
  lemma OnlyEndRecords(d: Device, log: seq<Chunk>, buf: seq<byte>, len: nat, fates: Fates)
    requires TransferOk(d, log) && |buf| == MAX_FRAME && 0 < len <= MAX_FRAME && AllOrNothing(fates)
    requires !IsBootCmd(d, buf, len) && PollFrame(d, buf, len, fates).device.meta != d.meta
    ensures TrialBoots.IsEndCmd(d, buf, len) && Recorded(d, PollFrame(d, buf, len, fates).device)
  {
    hide CrcOk, PollFrame, Recorded, HandleEnd, BootDecide, ChooseTarget;
    TrialBoots.PollCommand(d, buf, len, fates);
    if TrialBoots.IsEndCmd(d, buf, len) {
      TargetGiven(d, log);
      EndRecords(d, fates);
    }
  }

  lemma TargetGiven(d: Device, log: seq<Chunk>)
    requires TransferOk(d, log) && d.state == WaitEnd
    ensures d.target != NoSlot && d.Slot(d.target)[..d.session.receivedSize] == Payload(log)
    ensures d.session.receivedSize == |Payload(log)|
    ensures forall i :: 0 <= i < |log| ==> log[i].seqNo == i
  {}

  // ---- what the record names is what was received ----

  /** The numbers a HEADER frame announces. */
  datatype Announced = Announced(size: u32, crc: bv32, version: bv32)

  /** The numbers of the last HEADER frame that was accepted, after one more event. */
  function Heard(s: System, e: Event, h: Announced): Announced
    requires Possible(e)
  {
    if e.Poll? && s.mode == Bootloader && s.dev.state == WaitHeader && Step(s, e).dev.state == RecvData
    then Announced(FromLeU32(e.buf[4..8]), FromLe32(e.buf[8..12]), FromLe32(e.buf[12..16]))
    else h
  }

  function HeardIn(s: System, es: seq<Event>, h: Announced): Announced
    requires forall e :: e in es ==> Possible(e)
  {
    if es == [] then h else Heard(Run(s, es[..|es| - 1]), es[|es| - 1], HeardIn(s, es[..|es| - 1], h))
  }

  predicate SessionIs(d: Device, h: Announced) {
    d.state in {RecvData, WaitEnd} ==>
      d.session.imageSize == h.size && d.session.imageCrc == h.crc && d.session.imageVersion == h.version
  }

  lemma DataKeepsSession(d: Device, buf: seq<byte>, len: nat, fates: Fates, h: Announced)
    requires |buf| == MAX_FRAME && len <= MAX_FRAME && SessionIs(d, h)
    ensures SessionIs(HandleData(d, buf, len, fates).device, h)
  {
    hide WriteSlot, DataFault, FromLe16, FromLeU32;
  }

  lemma HeaderSession(d: Device, size: u32, crc: bv32, version: bv32, fates: Fates, h: Announced)
    requires SessionIs(d, h)
    ensures var e := HandleHeader(d, size, crc, version, fates).device;
            if d.state == WaitHeader then e.state == RecvData ==> SessionIs(e, Announced(size, crc, version))
            else SessionIs(e, h)
    ensures d.state == WaitHeader ==> HandleHeader(d, size, crc, version, fates).device.state != WaitEnd
  {
    hide EraseSlot;
  }

  lemma StepHears(s: System, e: Event, h: Announced)
    requires Possible(e) && !e.Rot? && s.dev.WellFormed() && SessionIs(s.dev, h)
    ensures SessionIs(Step(s, e).dev, Heard(s, e, h))
  {
    hide PollFrame, BootDecide;
    match e
    case Poll(buf, len, fates) =>
      if s.mode == Bootloader {
        PollHears(s.dev, e, h);
      }
    case Restart(button, fates) =>
      BootKeepsSlots(Booted(s.dev), fates);
    case AppConfirm(fate) =>
  }

  lemma PollHears(d: Device, e: Event, h: Announced)
    requires Possible(e) && e.Poll? && d.WellFormed() && SessionIs(d, h)
    ensures SessionIs(Step(System(d, Bootloader), e).dev, Heard(System(d, Bootloader), e, h))
  {
    PollCases(d, e.buf, e.len, e.fates);
    var f := e.buf[..e.len];
    hide CrcOk, HandleCmd, HandleHeader, HandleData, FromLeU32, FromLe32, PollFrame, Device.WellFormed;
    if e.len > 4 {
      CmdKeeps(d, f[4], e.fates);
    }
    if e.len == 21 {
      assert f[4..8] == e.buf[4..8] && f[8..12] == e.buf[8..12] && f[12..16] == e.buf[12..16];
      HeaderSession(d, FromLeU32(f[4..8]), FromLe32(f[8..12]), FromLe32(f[12..16]), e.fates, h);
    }
    DataKeepsSession(d, e.buf, e.len, e.fates, h);
    if d.state == WaitHeader {
      HandleDataWaits(d, e.buf, e.len, e.fates);
    }
  }

  lemma HandleDataWaits(d: Device, buf: seq<byte>, len: nat, fates: Fates)
    requires |buf| == MAX_FRAME && len <= MAX_FRAME && d.state != RecvData
    ensures HandleData(d, buf, len, fates).device == d
  {
    hide FromLe16, FromLeU32;
  }

  lemma KeepsSizes(d: Device, log: seq<Chunk>)
    requires TransferOk(d, log)
    ensures d.WellFormed()
  {}

  lemma {:induction false} SessionFollows(s: System, es: seq<Event>, h: Announced)
    requires (forall e :: e in es ==> Possible(e) && !e.Rot?) && s.dev.WellFormed() && s.dev.state == Idle
    ensures SessionIs(Run(s, es).dev, HeardIn(s, es, h)) && TransferOk(Run(s, es).dev, LogOf(s, es, []))
  {
    assert TransferOk(s.dev, []) && SessionIs(s.dev, h);
    hide SessionIs, Heard, Step, TransferOk;
    ExactlyOnce(s, es, []);
    if es != [] {
      SessionFollows(s, es[..|es| - 1], h);
      KeepsSizes(Run(s, es[..|es| - 1]).dev, LogOf(s, es[..|es| - 1], []));
      StepHears(Run(s, es[..|es| - 1]), es[|es| - 1], HeardIn(s, es[..|es| - 1], h));
    }
  }

  /** On every run without decay, whatever was lost, repeated, corrupted or failed: when a poll other than a boot
      decision changes the record, the image it records as pending has the numbers the last HEADER announced, and they
      are the length and the checksum of the chunks accepted since, which the slot holds in order. */
  lemma RecordedImageIsReceived(s: System, es: seq<Event>, e: Event, h: Announced)
    requires (forall x :: x in es ==> Possible(x) && !x.Rot?) && s.dev.WellFormed() && s.dev.state == Idle
    requires Whole(e) && e.Poll? && Run(s, es).mode == Bootloader && !Decides(Run(s, es), e)
    requires Step(Run(s, es), e).dev.meta != Run(s, es).dev.meta
    ensures var t, heard, received := Run(s, es), HeardIn(s, es, h), Payload(LogOf(s, es, []));
            var d := Step(t, e).dev;
            && PendingOf(d) == t.dev.target != NoSlot
            && (var i := LoadOrDefault(d.meta).Info(PendingOf(d));
                && i.state == Pending && i.attempts == 3
                && i.size == heard.size && i.crc == heard.crc && i.version == heard.version
                && i.size == |received| && i.crc == Crc(received, 0))
            && received <= d.Slot(PendingOf(d))
  {
    SessionFollows(s, es, h);
    var t := Run(s, es);
    hide Crc, CrcOk, Run, HeardIn, LogOf, Payload, PollFrame, ImageOk, TransferOk;
    OnlyEndRecords(t.dev, LogOf(s, es, []), e.buf, e.len, e.fates);
    TargetGiven(t.dev, LogOf(s, es, []));
  }

  // ---- after a confirm ----

  /** Nothing is pending, both images are sound, the one in `previous` is VALID and the other one confirmed, and no data
      is being received. */
  ghost predicate Resting(s: System, previous: SlotId)
    requires previous != NoSlot
  {
    && Guarded(s) && ConfirmedOf(s.dev) == Other(previous) && PendingOf(s.dev) == NoSlot
    && LoadOrDefault(s.dev.meta).Info(previous).state == Valid && Sound(s.dev, previous)
    && s.dev.state !in {RecvData, WaitEnd}
  }

  /** A confirm over a confirmed image leaves the device at rest, the image confirmed before being the previous one. */
  lemma ConfirmRests(s: System, fate: MetaStore.Fate)
    requires Guarded(s) && s.mode.Running? && MetaStore.TakesEffect(fate)
    requires ConfirmedOf(s.dev) != NoSlot && PendingOf(s.dev) != NoSlot && Sound(s.dev, PendingOf(s.dev))
    ensures var t, p := Step(s, AppConfirm(fate)), PendingOf(s.dev);
            && Resting(t, ConfirmedOf(s.dev)) && t.dev.a == s.dev.a && t.dev.b == s.dev.b && ConfirmedOf(t.dev) == p
            && SameImage(s.dev, t.dev, p)
  {
    StepSafe(s, AppConfirm(fate));
    ConfirmKeepsPrevious(s.dev.meta.value);
    ConfirmedIsSound(s);
    var t, c := Step(s, AppConfirm(fate)), ConfirmedOf(s.dev);
    hide ImageOk, Structured, Guarded, Confirm, ConfirmedKept;
    NotInTransfer(s);
    SoundKept(s.dev, t.dev, c);
  }

  lemma NotInTransfer(s: System)
    requires Guarded(s) && s.mode.Running?
    ensures s.dev.state !in {RecvData, WaitEnd}
  {}

  lemma DecisionRests(d: Device, fates: Fates)
    requires PendingOf(d) == NoSlot && ConfirmedOf(d) != NoSlot && Sound(d, ConfirmedOf(d))
    ensures var o := BootDecide(d, fates); o.device == d.Refreshed() && o.jump == ConfirmedOf(d)
  {
    hide ImageOk;
  }

  lemma CmdRests(d: Device, cmd: byte, fates: Fates)
    requires d.state != WaitEnd && !(d.state == Idle && cmd == CMD_BOOT)
    ensures HandleCmd(d, cmd, fates).device.meta == d.meta
  {
    hide BootDecide, HandleEnd, ChooseTarget;
  }

  lemma PollRests(d: Device, e: Event, previous: SlotId)
    requires previous != NoSlot && Resting(System(d, Bootloader), previous) && Whole(e) && e.Poll?
    requires !IsBootCmd(d, e.buf, e.len) && !HeaderTaken(System(d, Bootloader), e, previous)
    ensures var f := PollFrame(d, e.buf, e.len, e.fates).device;
            f.meta == d.meta && f.Slot(previous) == d.Slot(previous) && f.state !in {RecvData, WaitEnd}
  {
    PollCases(d, e.buf, e.len, e.fates);
    PollKeepsSlot(d, e, previous);
    TrialBoots.PollCommand(d, e.buf, e.len, e.fates);
    var f := e.buf[..e.len];
    hide CrcOk, HandleCmd, HandleData, FromLeU32, FromLe32, PollFrame, ImageOk, EraseSlot;
    if e.len > 4 {
      CmdKeeps(d, f[4], e.fates);
      if !(d.state == Idle && f[4] == CMD_BOOT) {
        CmdRests(d, f[4], e.fates);
      }
    }
    HandleDataWaits(d, e.buf, e.len, e.fates);
  }

  lemma StepRests(s: System, e: Event, previous: SlotId)
    requires previous != NoSlot && Resting(s, previous) && Whole(e) && !e.Rot? && !e.AppConfirm?
    requires !HeaderTaken(s, e, previous)
    ensures Resting(Step(s, e), previous) && Step(s, e).dev.meta == s.dev.meta
    ensures Step(s, e).dev.Slot(previous) == s.dev.Slot(previous)
  {
    StepSafe(s, e);
    NotAConfirm(s, e);
    hide ImageOk, PollFrame, BootDecide, Structured, HeaderTaken, IsBootCmd, Guarded, ConfirmedKept, ConfirmsUnsound;
    if Decides(s, e) {
      DecisionStep(s, e);
      ConfirmedIsSound(s);
      DecisionRests(Decider(s, e), e.fates);
    } else if e.Poll? && s.mode == Bootloader {
      PollRests(s.dev, e, previous);
    }
  }

  lemma ConfirmedIsSound(s: System)
    requires Guarded(s) && ConfirmedOf(s.dev) != NoSlot
    ensures Sound(s.dev, ConfirmedOf(s.dev))
  {}

  lemma {:induction false} RunRests(s: System, es: seq<Event>, n: nat, previous: SlotId)
    requires previous != NoSlot && Resting(s, previous) && n <= |es| && Undisturbed(es)
    requires forall i :: 0 <= i < n ==> !HeaderTaken(StateAt(s, es, i), es[i], previous)
    ensures var t := StateAt(s, es, n);
            Resting(t, previous) && t.dev.meta == s.dev.meta && t.dev.Slot(previous) == s.dev.Slot(previous)
  {
    hide HeaderTaken, Step, Resting;
    if n == 0 {
      StateEnds(s, es);
    } else {
      RunRests(s, es, n - 1, previous);
      StateNext(s, es, n - 1);
      StepRests(StateAt(s, es, n - 1), es[n - 1], previous);
    }
  }

  /** After the confirm, a run, and the decay of the image that was confirmed. */
  function Decaying(s: System, fate: MetaStore.Fate, mid: seq<Event>, content: seq<byte>): System
    requires PendingOf(s.dev) != NoSlot && |content| == SLOT_SIZE && Undisturbed(mid)
  {
    Step(Run(Step(s, AppConfirm(fate)), mid), Rot(PendingOf(s.dev), content))
  }

  /** An image is confirmed over another sound one and later decays, with no download begun in between. The first boot
      decision that marks it bad hands over to the image confirmed before, and the next one starts that, byte for byte,
      unless it starts the trial of an image downloaded since. That it is VALID comes from the confirm. */
  lemma ConfirmThenFallBack(s: System, fate: MetaStore.Fate, mid: seq<Event>, content: seq<byte>, first: Event,
      es: seq<Event>, second: Event)
    requires Guarded(s) && s.mode.Running? && MetaStore.TakesEffect(fate)
    requires ConfirmedOf(s.dev) != NoSlot && PendingOf(s.dev) != NoSlot && Sound(s.dev, PendingOf(s.dev))
    requires Undisturbed(mid)
    requires forall i :: 0 <= i < |mid| ==>
               !HeaderTaken(StateAt(Step(s, AppConfirm(fate)), mid, i), mid[i], ConfirmedOf(s.dev))
    requires |content| == SLOT_SIZE
    requires var i := LoadOrDefault(s.dev.meta).Info(PendingOf(s.dev)); !ImageOk(content, i.size, i.crc)
    requires Whole(first) && Decides(Decaying(s, fate, mid, content), first)
    requires MetaStore.TakesEffect(first.fates.badConfirmed) && Undisturbed(es) && Whole(second)
    ensures StartsPrevious(s, Step(Decaying(s, fate, mid, content), first), es, second, ConfirmedOf(s.dev))
  {
    var t0, c, p := Step(s, AppConfirm(fate)), ConfirmedOf(s.dev), PendingOf(s.dev);
    ConfirmRests(s, fate);
    RunRests(t0, mid, |mid|, c);
    StateEnds(t0, mid);
    var t1 := Run(t0, mid);
    var t2 := Decaying(s, fate, mid, content);
    DecayOf(s.dev, t0.dev, t1, c, p, content);
    hide ImageOk, Step, Run, HeaderTaken, Resting, Decides, StartsPrevious, Decayed, Guarded, Grounded, Decaying,
         StateAt;
    PreviousImageBooted(t2, first, es, second);
    PreviousBytes(s, t2, Step(t2, first), es, second, c);
  }

  lemma PreviousBytes(s: System, r: System, t: System, es: seq<Event>, e: Event, c: SlotId)
    requires c != NoSlot && (forall x :: x in es ==> Possible(x)) && Possible(e) && r.dev.Slot(c) == s.dev.Slot(c)
    requires StartsPrevious(r, t, es, e, c)
    ensures StartsPrevious(s, t, es, e, c)
  {
    hide Run, Step, Decides, ImageOk, StartsTrial;
  }

  lemma DecayOf(s: Device, t0: Device, t1: System, c: SlotId, p: SlotId, content: seq<byte>)
    requires c != NoSlot && p == Other(c) && Resting(t1, c) && t1.dev.meta == t0.meta && SameImage(s, t0, p)
    requires |content| == SLOT_SIZE && !ImageOk(content, LoadOrDefault(s.meta).Info(p).size,
                                                LoadOrDefault(s.meta).Info(p).crc)
    ensures var t2 := Step(t1, Rot(p, content));
            && Grounded(t2) && Decayed(t2.dev) && ConfirmedOf(t2.dev) == p && t2.dev.Slot(c) == t1.dev.Slot(c)
  {
    hide ImageOk, Structured;
  }
}
