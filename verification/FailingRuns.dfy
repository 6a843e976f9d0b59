/** Runs on which a promise fails, built from the frames the host sends, and what abandoned downloads leave behind. */
module FailingRuns {
  import opened Bytes
  import opened Crc32
  import opened Protocol
  import opened Metadata
  import opened DeviceModel
  import opened SlotInvariant
  import opened BootSystem
  import opened Safety
  import opened Host
  import F = FlashStorage
  import MetaStore
  import Transfer
  import TrialBoots

  // ---- frames as events ----

  /** The frame buffer after a frame was received into it. */
  function Received(f: seq<byte>): seq<byte>
    requires |f| <= MAX_FRAME
  {
    f + seq(MAX_FRAME - |f|, _ => 0)
  }

  function CmdEvent(cmd: byte): Event {
    CmdFrameLength(cmd);
    Poll(Received(CmdFrame(cmd)), 13, SMOOTH)
  }

  function HeaderEvent(size: u32, crc: bv32, version: bv32): Event {
    HeaderFrameLength(size, crc, version);
    Poll(Received(HeaderFrame(size, crc, version)), 21, SMOOTH)
  }

  lemma CmdEventStep(d: Device, cmd: byte)
    ensures Possible(CmdEvent(cmd)) && Step(System(d, Bootloader), CmdEvent(cmd)) == Land(HandleCmd(d, cmd, SMOOTH))
  {
    hide CmdFrame, PollFrame, HandleCmd;
    CmdFrameLength(cmd);
    CmdFrameHandled(d, Received(CmdFrame(cmd)), cmd, SMOOTH);
  }

  lemma HeaderEventStep(d: Device, size: u32, crc: bv32, version: bv32)
    ensures Possible(HeaderEvent(size, crc, version))
    ensures Step(System(d, Bootloader), HeaderEvent(size, crc, version))
            == Land(HandleHeader(d, size, crc, version, SMOOTH))
  {
    hide HeaderFrame, PollFrame, HandleHeader;
    HeaderFrameLength(size, crc, version);
    HeaderFrameHandled(d, Received(HeaderFrame(size, crc, version)), size, crc, version, SMOOTH);
  }

  // ---- an abandoned download ----

  /** START, HEADER and ABORT. */
  function Abandoned(size: u32): seq<Event> {
    [CmdEvent(CMD_START), HeaderEvent(size, 1, 1), CmdEvent(CMD_ABORT)]
  }

  /** The device after it: the target's first pages are erased, and the record still says what it said. */
  function AfterAbandoned(d: Device, size: u32): Device {
    var target := ChooseTarget(LoadOrDefault(d.meta));
    d.Refreshed().Reset().(state := Idle).WithSlot(target, EraseSlot(d.Slot(target), size, Done).content)
  }

  lemma AbandonedRun(d: Device, size: u32)
    requires d.WellFormed() && d.state == Idle && 0 < size <= SLOT_SIZE
    ensures forall e :: e in Abandoned(size) ==> Possible(e) && Whole(e)
    ensures Run(System(d, Bootloader), Abandoned(size)) == System(AfterAbandoned(d, size), Bootloader)
  {
    hide CmdEvent, HeaderEvent, Step, F.AlignUp, Splice;
    var es := Abandoned(size);
    var target := ChooseTarget(LoadOrDefault(d.meta));
    var d1 := d.Refreshed().Reset().(target := target, state := WaitHeader);
    var e := EraseSlot(d.Slot(target), size, Done);
    var d2 := d1.WithSlot(target, e.content).(session := Session(0, 0, size, 1, 1), state := RecvData);
    CmdEventStep(d, CMD_START);
    HeaderEventStep(d1, size, 1, 1);
    CmdEventStep(d2, CMD_ABORT);
    Transfer.EraseDone(d.Slot(target), size);
    EventsWhole(size);
    assert es[..3] == es && es[..3][..2] == es[..2] && es[..2][..1] == es[..1] && es[..1][..0] == [];
    ThreeSteps(System(d, Bootloader), es);
  }

  lemma EventsWhole(size: u32)
    ensures Whole(CmdEvent(CMD_START)) && Whole(HeaderEvent(size, 1, 1)) && Whole(CmdEvent(CMD_ABORT))
  {
    hide CmdFrame, HeaderFrame;
    CmdFrameLength(CMD_START);
    CmdFrameLength(CMD_ABORT);
    HeaderFrameLength(size, 1, 1);
  }

  lemma ThreeSteps(s: System, es: seq<Event>)
    requires |es| == 3 && forall e :: e in es ==> Possible(e)
    ensures Run(s, es) == Step(Step(Step(s, es[0]), es[1]), es[2])
  {
    hide Step;
    assert es[..2][..1] == es[..1] && es[..1][..0] == [];
    assert Run(s, es[..1]) == Step(s, es[0]);
    assert Run(s, es[..2]) == Step(Step(s, es[0]), es[1]);
  }

  // ---- the host is fooled ----

  /** After an abandoned download the target's record still names the old image, so the host skips that image from
      then on, although its bytes are gone. */
  lemma SkipCanBeWrong(d: Device, image: seq<byte>, crc: bv32, version: bv32, size: u32)
    requires d.WellFormed() && d.state == Idle && 0 < size <= SLOT_SIZE
    requires image != [] && image[0] != F.ERASED && AlreadyThere(LoadOrDefault(d.meta), image, crc, version)
    ensures forall e :: e in Abandoned(size) ==> Possible(e)
    ensures var e := Run(System(d, Bootloader), Abandoned(size)).dev;
            var target := ChooseTarget(LoadOrDefault(e.meta));
            && e.state == Idle && AlreadyThere(LoadOrDefault(e.meta), image, crc, version)
            && e.meta == d.meta && |e.Slot(target)| == SLOT_SIZE && !(image <= e.Slot(target))
  {
    AbandonedRun(d, size);
    Transfer.EraseDone(d.Slot(ChooseTarget(LoadOrDefault(d.meta))), size);
    hide EraseSlot, Abandoned;
  }

  /** A skip is right as long as no HEADER for the slot was accepted since the image was installed. */
  lemma SkipIsRight(s: System, es: seq<Event>, slot: SlotId, image: seq<byte>, crc: bv32, version: bv32, attempts: u8)
    requires slot != NoSlot && Installed(s.dev, slot, image, crc, version, attempts) && Transfer.TransferOk(s.dev, [])
    requires !Transfer.ReceivesInto(s, slot) && forall e :: e in es ==> Possible(e) && !e.Rot?
    requires forall i :: 0 <= i < |es| ==> !Transfer.HeaderTaken(StateAt(s, es, i), es[i], slot)
    ensures image <= Run(s, es).dev.Slot(slot)
  {
    Transfer.SlotKept(s, es, |es|, slot);
    StateEnds(s, es);
    hide Run, StateAt, Transfer.HeaderTaken, Transfer.TransferOk, Transfer.ReceivesInto;
  }

  /** And it is wrong once one was, if its erase completed and nothing has been written to the slot since. */
  lemma SkipIsWrong(s: System, es: seq<Event>, slot: SlotId, image: seq<byte>, k: nat)
    requires slot != NoSlot && Transfer.TransferOk(s.dev, []) && image != [] && image[0] != F.ERASED && k < |es|
    requires forall e :: e in es ==> Possible(e) && !e.Rot?
    requires Transfer.HeaderTaken(StateAt(s, es, k), es[k], slot)
    requires forall i :: k <= i < |es| && Transfer.HeaderTaken(StateAt(s, es, i), es[i], slot) ==>
               es[i].fates.slot == Done
    requires forall i :: k < i < |es| ==> !Transfer.ChunkTaken(StateAt(s, es, i), es[i], slot)
    ensures !(image <= Run(s, es).dev.Slot(slot))
  {
    Transfer.ErasedSince(s, es, k, |es|, slot);
    StateEnds(s, es);
    hide Run, StateAt, Transfer.HeaderTaken, Transfer.ChunkTaken, Transfer.TransferOk;
  }

  // ---- a start from which the promises are broken ----

  lemma SomeByteHasChecksum() returns (v: byte)
    ensures Crc([v], 0) != 0 && v != F.ERASED
  {
    v := 0;
    if Crc([0], 0) == 0 {
      v := 1;
      if Crc([1], 0) == 0 {
        NotNot(Feed(Not(0), [0]));
        NotNot(Feed(Not(0), [1]));
        OneByteInjective(Not(0), 0, 1);
      }
    }
  }

  lemma OneByteInjective(c: bv32, v: byte, w: byte)
    requires Feed(c, [v]) == Feed(c, [w])
    ensures v == w
  {
    hide Xor, ShiftBits;
    assert [v][..0] == [] && [w][..0] == [];
    ShiftBitsInjective(Xor(c, Word(v)), Xor(c, Word(w)), 8);
    XorCancels(c, Word(v));
    XorCancels(c, Word(w));
  }

  /** Both slots hold the one-byte image v, A is active and confirmed, and B is pending with three attempts. */
  function BothSound(v: byte): Device {
    var image := seq(SLOT_SIZE, _ => v);
    var w := Crc([v], 0);
    var m := Record(A, A, B, 0, SlotInfo(1, 1, w, Confirmed, 0, 0), SlotInfo(2, 1, w, Pending, MAX_BOOT_ATTEMPTS, 0));
    Device(Idle, NO_SESSION, NoSlot, m, image, image, Some(m))
  }

  lemma BothSoundFacts(v: byte)
    requires Crc([v], 0) != 0
    ensures var d := BothSound(v);
            && Guarded(System(d, Bootloader)) && Sound(d, A) && Sound(d, B)
            && ConfirmedOf(d) == A && PendingOf(d) == B
  {
    hide Crc;
    var image: seq<byte> := seq(SLOT_SIZE, _ => v);
    assert image[..1] == [v];
  }

  /** An abandoned download keeps all the claims rest on: it touches only the target slot. */
  lemma AbandonedKeeps(d: Device, size: u32)
    requires Guarded(System(d, Bootloader)) && d.state == Idle && 0 < size <= SLOT_SIZE && PendingOf(d) == B
    ensures var e := AfterAbandoned(d, size);
            && e.meta == d.meta && Guarded(System(e, Bootloader)) && Booted(e) == e
            && e.a == d.a && |e.b| == SLOT_SIZE && e.b[0] == F.ERASED
  {
    StructuredFacts(LoadOrDefault(d.meta));
    Transfer.EraseDone(d.b, size);
    hide Crc, EraseSlot, StateAgrees;
  }

  lemma OtherByte(v: byte, w: byte)
    requires v != w
    ensures Crc([v], 0) != Crc([w], 0)
  {
    hide Feed;
    if Crc([v], 0) == Crc([w], 0) {
      NotNot(Feed(Not(0), [v]));
      NotNot(Feed(Not(0), [w]));
      OneByteInjective(Not(0), v, w);
    }
  }

  lemma ErasedUnsound(d: Device, slot: SlotId, v: byte)
    requires slot != NoSlot && |d.Slot(slot)| > 0 && d.Slot(slot)[0] == F.ERASED && v != F.ERASED
    requires var i := LoadOrDefault(d.meta).Info(slot); i.size == 1 && i.crc == Crc([v], 0)
    ensures !Sound(d, slot)
  {
    OtherByte(v, F.ERASED);
    assert d.Slot(slot)[..1] == [F.ERASED];
    hide Crc;
  }

  /** After an abandoned download of one byte the pending image is not sound any more; nothing else has changed. */
  lemma PendingErased(v: byte)
    requires Crc([v], 0) != 0 && v != F.ERASED
    ensures var d, e := BothSound(v), AfterAbandoned(BothSound(v), 1);
            && e.meta == d.meta && Guarded(System(e, Bootloader)) && Booted(e) == e
            && Sound(e, A) && !Sound(e, B) && ConfirmedOf(e) == A && PendingOf(e) == B
  {
    var d, e := BothSound(v), AfterAbandoned(BothSound(v), 1);
    hide Crc, BothSound, AfterAbandoned, Structured, Guarded, ImageOk, Booted;
    BothSoundFacts(v);
    BothSoundStarts(v);
    SameRecord(v);
    AbandonedKeeps(d, 1);
    ErasedUnsound(e, B, v);
  }

  /** Nothing fails but the write that marks the pending slot bad. */
  const LOST_MARK := Fates(Done, MetaStore.Written, MetaStore.Written, MetaStore.Kept, MetaStore.Written)

  lemma LostMarkConfirms(e: Device)
    requires Guarded(System(e, Bootloader)) && Booted(e) == e && Sound(e, A) && !Sound(e, B)
    requires ConfirmedOf(e) == A && PendingOf(e) == B
    ensures var t := Step(System(e, Bootloader), Restart(false, LOST_MARK));
            var u := Step(t, AppConfirm(MetaStore.Written));
            t.mode == Running(A) && ConfirmedOf(u.dev) == B && !Sound(u.dev, B)
  {
    hide ImageOk, BootDecide;
    assert StalePending(e, LOST_MARK);
    ConfirmAfterBootIff(e, LOST_MARK);
    BootSplits(e, LOST_MARK);
    var t := Land(BootDecide(e, LOST_MARK));
    SoundAfterConfirm(t, B);
  }

  lemma LostMarkSeparates(e: Device)
    requires DeviceOk(e) && !InTransfer(e) && Booted(e) == e && Separates(e, LOST_MARK)
    ensures var m := LoadOrDefault(Step(System(e, Bootloader), Restart(false, LOST_MARK)).dev.meta);
            m.active != m.confirmed
  {
    hide ImageOk, BootDecide, Separates, DeviceOk;
    BootKeepsActiveConfirmedIff(e, LOST_MARK);
  }

  lemma LostMarkIsWhole()
    ensures Whole(Restart(false, LOST_MARK)) && Whole(AppConfirm(MetaStore.Written)) && Whole(Rot(A, Blank(SLOT_SIZE)))
  {}

  /** From a state in which everything is sound: a download is abandoned, the next restart cannot record that the
      pending image is gone, starts the confirmed one, and that image's own start-up confirm makes the erased image
      the confirmed one. */
  lemma UnsoundImageConfirmed() returns (s: System, es: seq<Event>)
    ensures Guarded(s) && PendingOf(s.dev) == B && Sound(s.dev, A) && Sound(s.dev, B) && s.mode == Bootloader
    ensures es == Abandoned(1) + [Restart(false, LOST_MARK), AppConfirm(MetaStore.Written)]
    ensures forall e :: e in es ==> Possible(e) && Whole(e) && !e.Rot?
    ensures StateAt(s, es, 4).mode == Running(A)
    ensures ConfirmedOf(Run(s, es).dev) == B && !Sound(Run(s, es).dev, B)
  {
    hide Crc, BothSound, AfterAbandoned, Sound, Guarded, ConfirmedOf, PendingOf, Step, Run, StateAt, Whole, Booted,
        Abandoned;
    var v := SomeByteHasChecksum();
    BothSoundFacts(v);
    PendingErased(v);
    BothSoundStarts(v);
    AbandonedRun(BothSound(v), 1);
    LostMarkConfirms(AfterAbandoned(BothSound(v), 1));
    LostMarkIsWhole();
    AbandonedPolls(1);
    s := System(BothSound(v), Bootloader);
    es := Abandoned(1) + [Restart(false, LOST_MARK), AppConfirm(MetaStore.Written)];
    assert es[..3] == Abandoned(1);
    TwoMore(s, es);
  }

  lemma BothSoundStarts(v: byte)
    ensures BothSound(v).WellFormed() && BothSound(v).state == Idle
  {
    hide Crc;
  }

  lemma AbandonedPolls(size: u32)
    ensures |Abandoned(size)| == 3 && forall e :: e in Abandoned(size) ==> e.Poll?
  {
    hide CmdFrame, HeaderFrame;
  }

  lemma TwoMore(s: System, es: seq<Event>)
    requires |es| == 5 && forall e :: e in es ==> Possible(e)
    ensures StateAt(s, es, 4) == Step(Run(s, es[..3]), es[3])
    ensures Run(s, es) == Step(Step(Run(s, es[..3]), es[3]), es[4])
  {
    hide Step;
    StateNext(s, es, 3);
    StateNext(s, es, 4);
    StateEnds(s, es);
  }

  /** The same lost write, with the confirmed slot decaying before the restart, separates active from confirmed. */
  lemma ActiveSeparated() returns (s: System, es: seq<Event>)
    ensures Guarded(s) && PendingOf(s.dev) == B && Sound(s.dev, A) && Sound(s.dev, B) && s.mode == Bootloader
    ensures es == Abandoned(1) + [Rot(A, Blank(SLOT_SIZE)), Restart(false, LOST_MARK)]
    ensures forall e :: e in es ==> Possible(e) && Whole(e)
    ensures var m := LoadOrDefault(Run(s, es).dev.meta); m.active != m.confirmed
  {
    hide Crc, BothSound, AfterAbandoned, Sound, Guarded, ConfirmedOf, PendingOf, Run, StateAt, Whole, Booted, Abandoned,
         Separates, DeviceOk, BootDecide, PollFrame;
    var v := SomeByteHasChecksum();
    BothSoundFacts(v);
    BothSoundStarts(v);
    AbandonedRun(BothSound(v), 1);
    DecaySeparates(v, AfterAbandoned(BothSound(v), 1));
    LostMarkSeparates(AfterAbandoned(BothSound(v), 1).WithSlot(A, Blank(SLOT_SIZE)));
    LostMarkIsWhole();
    AbandonedPolls(1);
    s := System(BothSound(v), Bootloader);
    es := Abandoned(1) + [Rot(A, Blank(SLOT_SIZE)), Restart(false, LOST_MARK)];
    assert es[..3] == Abandoned(1);
    TwoMore(s, es);
  }

  lemma DecaySeparates(v: byte, e: Device)
    requires Crc([v], 0) != 0 && v != F.ERASED && e == AfterAbandoned(BothSound(v), 1)
    ensures var f := e.WithSlot(A, Blank(SLOT_SIZE));
            DeviceOk(f) && !InTransfer(f) && Booted(f) == f && Separates(f, LOST_MARK)
  {
    PendingErased(v);
    OtherByte(v, F.ERASED);
    SameRecord(v);
    hide Crc, EraseSlot, BothSound, AfterAbandoned, ImageOk, Structured;
    BlankUnsound(e);
  }

  lemma BlankUnsound(e: Device)
    requires Guarded(System(e, Bootloader)) && Booted(e) == e && ConfirmedOf(e) == A && PendingOf(e) == B
        && !Sound(e, B)
    requires var i := LoadOrDefault(e.meta).Info(A); i.size == 1 && i.crc != Crc([F.ERASED], 0)
    ensures var f := e.WithSlot(A, Blank(SLOT_SIZE));
            DeviceOk(f) && !InTransfer(f) && Booted(f) == f && Separates(f, LOST_MARK)
  {
    var blank := Blank(SLOT_SIZE);
    assert blank[..1] == [F.ERASED];
    hide Crc, Blank, Structured, ChooseTarget;
  }

  lemma SameRecord(v: byte)
    ensures BothSound(v).meta.Some?
    ensures forall slot :: slot != NoSlot ==>
              BothSound(v).meta.value.Info(slot).crc == Crc([v], 0) && BothSound(v).meta.value.Info(slot).size == 1
  {
    hide Crc;
  }

  // ---- the previous image is lost too ----

  lemma {:induction false} RunAppend(s: System, a: seq<Event>, b: seq<Event>)
    requires (forall e :: e in a ==> Possible(e)) && forall e :: e in b ==> Possible(e)
    ensures (forall e :: e in a + b ==> Possible(e)) && Run(s, a + b) == Run(Run(s, a), b)
  {
    hide Step;
    if b == [] {
      assert a + b == a;
    } else {
      RunAppend(s, a, b[..|b| - 1]);
      assert (a + b)[..|a + b| - 1] == a + b[..|b| - 1];
    }
  }

  /** Both slots hold the one-byte image v, A is active and confirmed, and B is the valid previous image. */
  function OneValid(v: byte): Device {
    var image := seq(SLOT_SIZE, _ => v);
    var w := Crc([v], 0);
    var m := Record(A, A, NoSlot, 0, SlotInfo(2, 1, w, Confirmed, 0, 0), SlotInfo(1, 1, w, Valid, 0, 0));
    Device(Idle, NO_SESSION, NoSlot, m, image, image, Some(m))
  }

  lemma OneValidFacts(v: byte)
    requires Crc([v], 0) != 0
    ensures var d := OneValid(v);
            && Guarded(System(d, Bootloader)) && Sound(d, A) && Sound(d, B) && d.meta.Some? && d.state == Idle
            && ConfirmedOf(d) == A && PendingOf(d) == NoSlot
            && d.meta.value.active == A && d.meta.value.b.state == Valid
            && d.meta.value.a.size == 1 && d.meta.value.a.crc == Crc([v], 0)
            && d.meta.value.b.size == 1 && d.meta.value.b.crc == Crc([v], 0)
  {
    hide Crc;
    var image: seq<byte> := seq(SLOT_SIZE, _ => v);
    assert image[..1] == [v];
  }

  /** Nothing fails but the write that marks the confirmed slot bad. */
  const LOST_DECAY := Fates(Done, MetaStore.Written, MetaStore.Written, MetaStore.Written, MetaStore.Kept)

  lemma DecayedFacts(v: byte, d: Device)
    requires Crc([v], 0) != 0 && v != F.ERASED && d == OneValid(v).WithSlot(A, Blank(SLOT_SIZE))
    ensures Grounded(System(d, Bootloader)) && Decayed(d) && d.meta == OneValid(v).meta && d.a == Blank(SLOT_SIZE)
    ensures d.state == Idle
  {
    hide Crc, ImageOk, Blank, Structured, OneValid;
    OneValidFacts(v);
    BlankStarts();
    ErasedUnsound(d, A, v);
  }

  /** The lost write leaves everything as it was, in the bootloader. */
  lemma LostDecayStays(d: Device)
    requires Grounded(System(d, Bootloader)) && Decayed(d)
    ensures var t := Step(System(d, Bootloader), Restart(false, LOST_DECAY));
            && t.mode == Bootloader && t.dev.meta == d.meta && t.dev.a == d.a && t.dev.b == d.b && t.dev.state == Idle
            && t.dev.WellFormed()
  {
    var s, e := System(d, Bootloader), Restart(false, LOST_DECAY);
    DecisionStep(s, e);
    DeciderDecayed(s, e);
    DecayFound(Booted(d), LOST_DECAY);
    hide ImageOk, BootDecide, Structured;
  }

  /** With nothing pending and the confirmed image unsound a decision starts nothing; sizes and checksums stay. */
  lemma NothingStarts(d: Device, fates: Fates)
    requires d.meta.Some? && PendingOf(d) == NoSlot && ConfirmedOf(d) != NoSlot && !Sound(d, ConfirmedOf(d))
    requires AllOrNothing(fates)
    ensures var o := BootDecide(d, fates);
            && o.jump == NoSlot && o.device.a == d.a && o.device.b == d.b && o.device.meta.Some?
            && (forall x | x != NoSlot :: o.device.meta.value.Info(x).size == d.meta.value.Info(x).size
                                         && o.device.meta.value.Info(x).crc == d.meta.value.Info(x).crc)
  {
    hide ImageOk;
  }

  lemma LostDecayRun(v: byte)
    requires Crc([v], 0) != 0 && v != F.ERASED
    ensures Whole(Rot(A, Blank(SLOT_SIZE))) && Whole(Restart(false, LOST_DECAY)) && Whole(SMOOTH_RESTART)
    ensures var t := Run(System(OneValid(v), Bootloader), [Rot(A, Blank(SLOT_SIZE)), Restart(false, LOST_DECAY)]);
            && t.mode == Bootloader && t.dev.meta == OneValid(v).meta && t.dev.a == Blank(SLOT_SIZE)
            && t.dev.state == Idle && t.dev.WellFormed()
  {
    var d := OneValid(v);
    var r := d.WithSlot(A, Blank(SLOT_SIZE));
    DecayedFacts(v, r);
    LostDecayStays(r);
    DecayEvents(d);
    hide OneValid, Blank, Decayed, Grounded, Step, Run, Whole, Device.WellFormed, Device.WithSlot;
    RunTwo(System(d, Bootloader), Rot(A, Blank(SLOT_SIZE)), Restart(false, LOST_DECAY));
  }

  lemma RunTwo(s: System, e: Event, f: Event)
    requires Possible(e) && Possible(f)
    ensures Run(s, [e, f]) == Step(Step(s, e), f)
  {
    hide Step;
    assert [e, f][..1] == [e];
    RunOne(s, e);
  }

  lemma DecayEvents(d: Device)
    ensures Whole(Rot(A, Blank(SLOT_SIZE))) && Whole(Restart(false, LOST_DECAY)) && Whole(SMOOTH_RESTART)
    ensures Step(System(d, Bootloader), Rot(A, Blank(SLOT_SIZE))) == System(d.WithSlot(A, Blank(SLOT_SIZE)), Bootloader)
  {}

  /** After the decay of the confirmed image and one lost mark, an abandoned download erases the previous image, since
      the target is still the slot that is not active; no image is started, and no sound one is left. */
  lemma PreviousImageErased() returns (s: System, es: seq<Event>)
    ensures Guarded(s) && s.mode == Bootloader && ConfirmedOf(s.dev) == A
    ensures LoadOrDefault(s.dev.meta).b.state == Valid && Sound(s.dev, A) && Sound(s.dev, B)
    ensures es == [Rot(A, Blank(SLOT_SIZE)), Restart(false, LOST_DECAY)] + Abandoned(1) + [SMOOTH_RESTART]
    ensures forall e :: e in es ==> Possible(e) && Whole(e) && !e.AppConfirm?
    ensures var t := Run(s, es); t.mode == Bootloader && !Sound(t.dev, A) && !Sound(t.dev, B)
  {
    hide Crc, OneValid, Sound, Guarded, ConfirmedOf, PendingOf, Step, Run, Whole, Abandoned, Blank, AfterAbandoned;
    var v := SomeByteHasChecksum();
    OneValidFacts(v);
    LostDecayRun(v);
    s := System(OneValid(v), Bootloader);
    var first := [Rot(A, Blank(SLOT_SIZE)), Restart(false, LOST_DECAY)];
    es := first + Abandoned(1) + [SMOOTH_RESTART];
    var t := Run(s, first);
    AbandonedRun(t.dev, 1);
    AbandonedPolls(1);
    RunAppend(s, first, Abandoned(1));
    RunAppend(s, first + Abandoned(1), [SMOOTH_RESTART]);
    RunOne(System(AfterAbandoned(t.dev, 1), Bootloader), SMOOTH_RESTART);
    NothingLeft(t.dev, v);
  }

  lemma RunOne(s: System, e: Event)
    requires Possible(e)
    ensures Run(s, [e]) == Step(s, e)
  {
    hide Step;
    assert [e][..0] == [];
  }

  lemma BlankStarts()
    ensures |Blank(SLOT_SIZE)| == SLOT_SIZE && Blank(SLOT_SIZE)[0] == F.ERASED
  {}

  /** The record's sizes and checksums are still those of the one-byte image, and both slots begin erased. */
  ghost predicate BothGone(d: Device, v: byte) {
    && d.meta.Some? && |d.a| > 0 && |d.b| > 0 && d.a[0] == F.ERASED && d.b[0] == F.ERASED
    && (forall x | x != NoSlot :: d.meta.value.Info(x).size == 1 && d.meta.value.Info(x).crc == Crc([v], 0))
  }

  lemma AbandonedGone(d: Device, v: byte)
    requires d.WellFormed() && d.state == Idle && d.meta == OneValid(v).meta && d.a == Blank(SLOT_SIZE)
    requires Crc([v], 0) != 0
    ensures var e := AfterAbandoned(d, 1);
            BothGone(e, v) && Booted(e) == e && PendingOf(e) == NoSlot && ConfirmedOf(e) == A
  {
    OneValidFacts(v);
    BlankStarts();
    Transfer.EraseDone(d.b, 1);
    hide Crc, OneValid, Blank, EraseSlot;
  }

  lemma NothingLeft(d: Device, v: byte)
    requires d.WellFormed() && d.state == Idle && d.meta == OneValid(v).meta && d.a == Blank(SLOT_SIZE)
    requires Crc([v], 0) != 0 && v != F.ERASED
    ensures var t := Step(System(AfterAbandoned(d, 1), Bootloader), SMOOTH_RESTART);
            t.mode == Bootloader && !Sound(t.dev, A) && !Sound(t.dev, B)
  {
    AbandonedGone(d, v);
    var e := AfterAbandoned(d, 1);
    hide Crc, OneValid, Blank, AfterAbandoned, BootDecide, ImageOk;
    ErasedUnsound(e, A, v);
    NothingStarts(e, SMOOTH);
    var f := BootDecide(e, SMOOTH).device;
    ErasedUnsound(f, A, v);
    ErasedUnsound(f, B, v);
  }

  /** A restart in which the attempt is counted although the write reports a failure, and the slot is not marked bad,
      loses an attempt: two are left, and no trial was made. */
  lemma AttemptLost() returns (s: System, e: Event)
    ensures Guarded(s) && PendingOf(s.dev) == B && Sound(s.dev, B) && TrialBoots.Balanced(s.dev, 0, true)
    ensures Whole(e) && TrialBoots.Trials(s, e, 0) == 0 && !TrialBoots.Balanced(Step(s, e).dev, 0, true)
  {
    var v := SomeByteHasChecksum();
    BothSoundFacts(v);
    var d := BothSound(v);
    s := System(d, Bootloader);
    e := Restart(false, Fates(Done, MetaStore.Written, MetaStore.Unreported, MetaStore.Kept, MetaStore.Written));
    assert Booted(d) == d;
    hide Crc, ImageOk, BootDecide;
    TrialBoots.StepBalanced(s, e, 0);
    TrialBoots.DecisionTrials(s, e, 0);
  }
}
