/** The board: power-up, polling and the application's confirm, tied step by step to the runs of the safety claims. */
module Board {
  import opened Bytes
  import opened Protocol
  import opened Metadata
  import opened DeviceModel
  import opened BootSystem
  import opened Engine
  import opened UartTransport
  import F = FlashStorage
  import MetaStore
  import Safety
  import Transfer

  /** The device right after the engine was initialised on this flash. */
  ghost function Initialised(flash: F.Flash): Device
    requires Device1MB(flash)
    reads flash.mem
  {
    PartitionsFit(flash);
    var meta := MetaStore.Stored(MetaRegion(), flash);
    Device(Idle, NO_SESSION, NoSlot, LoadOrDefault(meta),
           F.Content(SlotRegion(A), flash), F.Content(SlotRegion(B), flash), meta)
  }

  /** From reset to the polling loop, or to an image. */
  method PowerUp(flash: F.Flash, button: bool) returns (engine: BootEngine, mode: Mode, ghost fates: Fates)
    requires Device1MB(flash)
    modifies flash`depth, flash`overwrites, flash.mem
    ensures fresh(engine) && engine.flash == flash
    ensures flash.depth == old(flash.depth) && flash.overwrites == old(flash.overwrites)
    ensures var d := old(Initialised(flash));
            System(engine.View(), mode) == if button then System(d, Bootloader) else Land(BootDecide(d, fates))
  {
    hide BootDecide, F.Content, MetaStore.Stored;
    engine := new BootEngine(flash);
    fates := SMOOTH;
    mode := Bootloader;
    if !button {
      var jump;
      jump, fates := engine.BootDecideAndJump();
      if jump != NoSlot {
        mode := Running(jump);
      }
    }
  }

  /** One frame was handed out by the receive path, and polled. */
  ghost predicate FrameTaken(was: seq<Event>, now: seq<Event>, before: seq<seq<byte>>, after: seq<seq<byte>>,
                             buf: seq<byte>, len: nat, fates: Fates) {
    && 0 < len <= MAX_FRAME == |buf|
    && now == was + [Event.Poll(buf, len, fates)] && after == before + [buf[..len]]
  }

  /** A restart of the model depends on the flash alone. */
  lemma RestartFrom(s: System, d: Device, button: bool, fates: Fates)
    requires d == Booted(s.dev)
    ensures Step(s, Restart(button, fates)) == if button then System(d, Bootloader) else Land(BootDecide(d, fates))
  {}

  lemma RunSnoc(s: System, es: seq<Event>, e: Event)
    requires (forall x :: x in es ==> Possible(x)) && Possible(e)
    ensures forall x :: x in es + [e] ==> Possible(x)
    ensures Run(s, es + [e]) == Step(Run(s, es), e)
  {
    assert (es + [e])[..|es|] == es;
  }

  /** The model run from the start so far, in which nothing decays. */
  ghost predicate Traced(start: System, trace: seq<Event>, now: System) {
    && (forall e :: e in trace ==> Possible(e) && !e.Rot?)
    && Transfer.TransferOk(start.dev, []) && now == Run(start, trace)
  }

  lemma TracedMore(start: System, trace: seq<Event>, now: System, e: Event)
    requires Traced(start, trace, now) && Possible(e) && !e.Rot?
    ensures Traced(start, trace + [e], Step(now, e))
  {
    hide Step, Transfer.TransferOk;
    RunSnoc(start, trace, e);
  }

  lemma TransferTraced(start: System, trace: seq<Event>, now: System)
    requires Traced(start, trace, now)
    ensures exists log :: Transfer.TransferOk(now.dev, log)
  {
    hide Run, Transfer.TransferOk;
    Transfer.ExactlyOnce(start, trace, []);
  }

  class BootBoard {
    const flash: F.Flash
    var engine: BootEngine
    var mode: Mode
    ghost var start: System
    ghost var trace: seq<Event>

    /** The board is where the model's run of the same events has got to; since power-up the flash lock has been
        balanced and no doubleword was programmed that was not erased. */
    ghost predicate Valid()
      reads this, engine, flash, flash.mem
    {
      && engine.flash == flash && Device1MB(flash)
      && Traced(start, trace, System(engine.View(), mode))
      && flash.depth == 0 && flash.overwrites == 0
    }

    constructor (flash: F.Flash, button: bool)
      requires Device1MB(flash) && flash.depth == 0 && flash.overwrites == 0
      modifies flash`depth, flash`overwrites, flash.mem
      ensures Valid() && this.flash == flash && fresh(engine)
      ensures start == System(old(Initialised(flash)), Bootloader)
      ensures exists fates :: trace == [Restart(button, fates)]
    {
      hide Step, BootDecide, Transfer.TransferOk, Initialised;
      ghost var d := Initialised(flash);
      InitialisedBoots(flash);
      ghost var fates;
      this.flash := flash;
      var e, m;
      e, m, fates := PowerUp(flash, button);
      engine, mode := e, m;
      start := System(d, Bootloader);
      trace := [Restart(button, fates)];
      new;
      StartsTraced(d);
      RestartFrom(start, d, button, fates);
      TracedMore(start, [], start, Restart(button, fates));
    }

    /** The device restarts; nothing but the flash survives. */
    method RestartBoard(button: bool)
      requires Valid()
      modifies this, flash`depth, flash`overwrites, flash.mem
      ensures Valid() && fresh(engine) && start == old(start)
      ensures exists fates :: trace == old(trace) + [Restart(button, fates)]
    {
      hide Step, BootDecide, Transfer.TransferOk, Initialised, Traced;
      ghost var was, d := System(engine.View(), mode), Initialised(flash);
      ghost var fates;
      RestartedView(engine);
      engine, mode, fates := PowerUp(flash, button);
      RestartFrom(was, d, button, fates);
      TracedMore(start, trace, was, Restart(button, fates));
      trace := trace + [Restart(button, fates)];
    }

    /** The application confirms its image. */
    method ConfirmRunningImage() returns (ok: bool)
      requires Valid() && mode.Running?
      modifies this`trace, flash`depth, flash`overwrites, flash.mem
      ensures Valid() && start == old(start)
      ensures exists fate :: trace == old(trace) + [AppConfirm(fate)]
    {
      hide Step, Transfer.TransferOk, Traced;
      ghost var was := System(engine.View(), mode);
      ghost var fate;
      ok, fate := ConfirmImage(engine);
      ConfirmStep(was, fate);
      TracedMore(start, trace, was, AppConfirm(fate));
      trace := trace + [AppConfirm(fate)];
    }

    /** One turn of the polling loop: a frame out of the receive path, or none in time. */
    method Poll(uart: UartDma, budget: nat)
      requires Valid() && mode == Bootloader
      requires uart.Valid() && uart.InSync() && uart.max == MAX_FRAME
      requires uart.ring != flash.mem && uart.dmaRx != flash.mem
      modifies this`mode, this`trace, engine, flash`depth, flash`overwrites, flash.mem, uart, uart.ring, uart.dmaRx
      ensures Valid() && start == old(start) && uart.Valid() && uart.InSync()
      ensures || (trace == old(trace) && uart.delivered == old(uart.delivered))
              || exists buf, len, fates ::
                   FrameTaken(old(trace), trace, old(uart.delivered), uart.delivered, buf, len, fates)
    {
      hide Step, Transfer.TransferOk, Traced, PollFrame;
      var buf := new byte[MAX_FRAME];
      var len;
      ghost var starved;
      len, starved := uart.ParseFrame(buf, budget);
      if len > 0 {
        ghost var frame, log := buf[..], trace;
        PollEngine(buf, len);
        ghost var fates :| trace == log + [Event.Poll(frame, len, fates)];
        assert FrameTaken(log, trace, old(uart.delivered), uart.delivered, frame, len, fates);
      }
    }

    /** The engine's part of a turn, with a frame in the buffer. */
    method PollEngine(buf: array<byte>, len: nat)
      requires Valid() && mode == Bootloader && buf.Length == MAX_FRAME && 0 < len <= MAX_FRAME && buf != flash.mem
      modifies this`mode, this`trace, engine, flash`depth, flash`overwrites, flash.mem
      ensures Valid() && start == old(start)
      ensures exists fates :: trace == old(trace) + [Event.Poll(old(buf[..]), len, fates)]
    {
      hide Step, Transfer.TransferOk, Traced, PollFrame;
      ghost var was, frame := System(engine.View(), mode), buf[..];
      ghost var fates;
      var jump;
      TransferTraced(start, trace, was);
      jump, fates := engine.Poll(buf, len);
      mode := if jump == NoSlot then Bootloader else Running(jump);
      PollStep(was, frame, len, fates);
      TracedMore(start, trace, was, Event.Poll(frame, len, fates));
      trace := trace + [Event.Poll(frame, len, fates)];
    }
  }

  /** What the safety theorems say of runs holds of the board: with a sound start, all-or-nothing record writes and no
      confirm of an unsound image, a confirmed image stays confirmed and sound. */
  lemma BoardStaysSafe(board: BootBoard)
    requires board.Valid() && Safety.Guarded(board.start) && forall e :: e in board.trace ==> Possible(e) && Whole(e)
    requires forall n :: 0 <= n < |board.trace| ==>
               !Safety.ConfirmsUnsound(StateAt(board.start, board.trace, n), board.trace[n])
    ensures Safety.Guarded(System(board.engine.View(), board.mode))
    ensures ConfirmedOf(board.start.dev) != NoSlot ==> ConfirmedOf(board.engine.View()) != NoSlot
  {
    hide Safety.Guarded, Safety.ConfirmsUnsound, Step, Whole, Run, StateAt, Transfer.TransferOk;
    Safety.GuardedUpTo(board.start, board.trace, |board.trace|);
    StateEnds(board.start, board.trace);
  }

  lemma StartsTraced(d: Device)
    requires d.WellFormed() && d.state == Idle
    ensures Traced(System(d, Bootloader), [], System(d, Bootloader))
  {}

  lemma InitialisedBoots(flash: F.Flash)
    requires Device1MB(flash)
    ensures var d := Initialised(flash); d.WellFormed() && d.state == Idle && d == Booted(d)
  {}

  lemma RestartedView(engine: BootEngine)
    requires engine.Valid()
    ensures Initialised(engine.flash) == Booted(engine.View())
  {}

  lemma ConfirmStep(s: System, fate: MetaStore.Fate)
    requires s.mode.Running?
    ensures var meta := MetaStore.AfterOperation(s.dev.meta, Confirm(s.dev.meta), fate);
            Step(s, AppConfirm(fate)) == s.(dev := s.dev.(meta := meta))
  {}

  lemma PollStep(s: System, buf: seq<byte>, len: nat, fates: Fates)
    requires s.mode == Bootloader && |buf| == MAX_FRAME && 0 < len <= MAX_FRAME
    ensures Step(s, Event.Poll(buf, len, fates)) == Land(PollFrame(s.dev, buf, len, fates))
  {}

  /** The application's own driver writes the record; the engine it will meet again is not running. */
  method ConfirmImage(engine: BootEngine) returns (ok: bool, ghost fate: MetaStore.Fate)
    requires engine.Valid()
    modifies engine.flash`depth, engine.flash`overwrites, engine.flash.mem
    ensures var was := old(engine.StoredRecord());
            var change := Confirm(was);
            && engine.View() == old(engine.View()).(meta := MetaStore.AfterOperation(was, change, fate))
            && (ok <==> MetaStore.Succeeds(change, fate))
    ensures engine.flash.depth == old(engine.flash.depth) && engine.flash.overwrites == old(engine.flash.overwrites)
  {
    PartitionsFit(engine.flash);
    ghost var before := engine.flash.mem[..];
    hide F.Fits, F.At, MetaStore.Stored;
    ok, fate := MetaStore.DoConfirm(engine.flash, MetaRegion());
    SlotsKept(before, engine.flash.mem[..]);
  }
}
