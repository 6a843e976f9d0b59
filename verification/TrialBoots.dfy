/** Trial boots of a pending image are counted: attempts left plus trials made is what END granted. */
module TrialBoots {
  import opened Bytes
  import opened Protocol
  import opened Metadata
  import opened DeviceModel
  import opened BootSystem
  import MetaStore

  predicate IsEndCmd(d: Device, buf: seq<byte>, len: nat)
    requires len <= |buf|
  {
    var f := buf[..len];
    len == 13 && Accepted(f) && f[1] == PKT_CMD && f[4] == CMD_END && d.state == WaitEnd
  }

  /** The number of trial boots of the pending image, after one more event. */
  function Trials(s: System, e: Event, n: nat): nat
    requires Possible(e)
  {
    match e
    case Poll(buf, len, fates) =>
      if s.mode != Bootloader then n
      else if IsBootCmd(s.dev, buf, len) && StartsTrial(s.dev, fates) then n + 1
      else if IsEndCmd(s.dev, buf, len) && Step(s, e).dev.meta != s.dev.meta then 0
      else n
    case Restart(button, fates) =>
      if !button && StartsTrial(Booted(s.dev), fates) then n + 1 else n
    case AppConfirm(_) => n
    case Rot(_, _) => n
  }

  function CountTrials(s: System, es: seq<Event>, n: nat): nat
    requires forall e :: e in es ==> Possible(e)
  {
    if es == [] then n
    else Trials(Run(s, es[..|es| - 1]), es[|es| - 1], CountTrials(s, es[..|es| - 1], n))
  }

  function AttemptsLeft(d: Device): nat
    requires PendingOf(d) != NoSlot
  {
    LoadOrDefault(d.meta).Info(PendingOf(d)).attempts
  }

  /** While an image is pending, its trials and its attempts left make up at most, and exactly when `exact`,
      what it was granted. */
  ghost predicate Balanced(d: Device, n: nat, exact: bool) {
    PendingOf(d) != NoSlot ==>
      && n + AttemptsLeft(d) <= MAX_BOOT_ATTEMPTS
      && (exact ==> n + AttemptsLeft(d) == MAX_BOOT_ATTEMPTS)
  }

  /** An attempt is lost: it was counted although the write reported a failure, and the write that should then mark
      the slot bad did nothing, so that the image stays pending without having been started. */
  predicate LosesAttempt(d: Device, fates: Fates) {
    && PendingOf(d) != NoSlot && LoadOrDefault(d.meta).Info(PendingOf(d)).state == Pending && AttemptsLeft(d) > 0
    && Sound(d, PendingOf(d)) && fates.decrement == MetaStore.Unreported && fates.badPending == MetaStore.Kept
  }

  /** A balance is kept by trying the pending slot, an exact one exactly unless an attempt is lost. */
  lemma TryPendingBalanced(d: Device, fates: Fates, n: nat)
    requires d.meta.Some? && d.ctrl == d.meta.value && AllOrNothing(fates) && Balanced(d, n, false)
    ensures var o := TryPending(d, fates); var m := if o.jump != NoSlot then n + 1 else n;
            && Balanced(o.device, m, false)
            && (Balanced(d, n, true) ==> (Balanced(o.device, m, true) <==> !LosesAttempt(d, fates)))
            && o.device.meta.Some?
            && (o.jump == NoSlot ==> o.device.ctrl == o.device.meta.value)
  {
    hide ImageOk;
  }

  lemma TryConfirmedBalanced(d: Device, fates: Fates, n: nat, exact: bool)
    requires d.meta.Some? && d.ctrl == d.meta.value && !fates.badConfirmed.Torn?
    ensures Balanced(d, n, exact) ==> Balanced(TryConfirmed(d, fates).device, n, exact)
  {
    hide ImageOk;
  }

  lemma LostAttemptStays(d: Device, fates: Fates)
    requires d.meta.Some? && d.ctrl == d.meta.value && LosesAttempt(d, fates)
    ensures var o := TryPending(d, fates);
            o.jump == NoSlot && PendingOf(o.device) == PendingOf(d) && Sound(o.device, PendingOf(d))
  {
    hide ImageOk;
  }

  lemma TryConfirmedKeepsSound(d: Device, fates: Fates)
    requires d.meta.Some? && d.ctrl == d.meta.value && !fates.badConfirmed.Torn?
    requires PendingOf(d) != NoSlot && Sound(d, PendingOf(d))
    ensures var e := TryConfirmed(d, fates).device; PendingOf(e) == PendingOf(d) && AttemptsLeft(e) == AttemptsLeft(d)
  {
    hide ImageOk;
  }

  /** So is it by a whole boot decision. */
  lemma BootBalanced(d: Device, fates: Fates, n: nat)
    requires AllOrNothing(fates) && Balanced(d, n, false)
    ensures var o := BootDecide(d, fates); var m := if StartsTrial(d, fates) then n + 1 else n;
            && Balanced(o.device, m, false)
            && (Balanced(d, n, true) ==> (Balanced(o.device, m, true) <==> !LosesAttempt(d, fates)))
  {
    hide TryPending, TryConfirmed, ImageOk;
    if d.meta.Some? {
      var loaded := d.Refreshed();
      var first := TryPending(loaded, fates);
      TryPendingBalanced(loaded, fates, n);
      if LosesAttempt(loaded, fates) {
        LostAttemptStays(loaded, fates);
        TryConfirmedKeepsSound(first.device, fates);
      }
      if first.jump == NoSlot {
        TryConfirmedBalanced(first.device, fates, n, false);
        TryConfirmedBalanced(first.device, fates, n, true);
      }
    }
  }

  lemma EndBalanced(d: Device, fates: Fates, n: nat, exact: bool)
    requires AllOrNothing(fates) && Balanced(d, n, exact)
    ensures var o := HandleEnd(d, fates);
            Balanced(o.device, if o.device.meta != d.meta then 0 else n, exact)
  {
    hide ImageOk;
  }

  lemma CmdBalanced(d: Device, cmd: byte, fates: Fates, n: nat, exact: bool)
    requires AllOrNothing(fates) && Balanced(d, n, exact) && !(d.state == Idle && cmd == CMD_BOOT)
    ensures var o := HandleCmd(d, cmd, fates);
            Balanced(o.device, if d.state == WaitEnd && cmd == CMD_END && o.device.meta != d.meta then 0 else n, exact)
  {
    hide BootDecide, HandleEnd, ChooseTarget;
    EndBalanced(d, fates, n, exact);
  }

  lemma HandlersKeepMeta(d: Device, buf: seq<byte>, len: nat, size: u32, crc: bv32, version: bv32, fates: Fates)
    requires |buf| == MAX_FRAME && len <= MAX_FRAME
    ensures HandleHeader(d, size, crc, version, fates).device.meta == d.meta
    ensures HandleData(d, buf, len, fates).device.meta == d.meta
  {
    hide EraseSlot, WriteSlot, DataFault, FromLe16, FromLeU32;
  }

  /** A command frame has one length, so a poll runs the command handler exactly on 13-byte command frames. */
  lemma PollCommand(d: Device, buf: seq<byte>, len: nat, fates: Fates)
    requires |buf| == MAX_FRAME && 0 < len <= MAX_FRAME
    ensures var o, f := PollFrame(d, buf, len, fates), buf[..len];
            if len == 13 && Accepted(f) && f[1] == PKT_CMD then o == HandleCmd(d, f[4], fates)
            else o.device.meta == d.meta
  {
    hide CrcOk, HandleCmd, HandleHeader, HandleData, FromLeU32, FromLe32;
    var f := buf[..len];
    if len == 21 {
      HandlersKeepMeta(d, buf, len, FromLeU32(f[4..8]), FromLe32(f[8..12]), FromLe32(f[12..16]), fates);
    }
    HandlersKeepMeta(d, buf, len, 0, 0, 0, fates);
  }

  predicate StepLoses(s: System, e: Event)
    requires Possible(e)
  {
    Decides(s, e) && LosesAttempt(Decider(s, e), e.fates)
  }

  lemma StepBalanced(s: System, e: Event, n: nat)
    requires Possible(e) && Whole(e) && Balanced(s.dev, n, false)
    ensures Balanced(Step(s, e).dev, Trials(s, e, n), false)
    ensures Balanced(s.dev, n, true) ==> (Balanced(Step(s, e).dev, Trials(s, e, n), true) <==> !StepLoses(s, e))
  {
    hide PollFrame, BootDecide, HandleCmd, StartsTrial, LosesAttempt, CrcOk;
    if Decides(s, e) {
      DecisionStep(s, e);
      BootBalanced(Decider(s, e), e.fates, n);
      DecisionTrials(s, e, n);
    } else {
      match e
      case Poll(buf, len, fates) =>
        if s.mode == Bootloader {
          PollCommand(s.dev, buf, len, fates);
          if len == 13 && !(s.dev.state == Idle && buf[..len][4] == CMD_BOOT) {
            CmdBalanced(s.dev, buf[..len][4], fates, n, false);
            if Balanced(s.dev, n, true) {
              CmdBalanced(s.dev, buf[..len][4], fates, n, true);
            }
          }
        }
      case Restart(button, fates) =>
      case AppConfirm(fate) =>
      case Rot(slot, content) =>
    }
  }

  lemma DecisionTrials(s: System, e: Event, n: nat)
    requires Possible(e) && Decides(s, e)
    ensures Trials(s, e, n) == if StartsTrial(Decider(s, e), e.fates) then n + 1 else n
  {
    hide PollFrame, BootDecide, StartsTrial, CrcOk;
  }

  lemma BalancedBound(d: Device, n: nat)
    requires Balanced(d, n, false)
    ensures PendingOf(d) != NoSlot ==> n + AttemptsLeft(d) <= 3
  {}

  /** Whatever all-or-nothing write fails, a pending image is started at most as often as it was granted attempts. */
  lemma {:induction false} AtMostThreeTrials(s: System, es: seq<Event>, n: nat)
    requires forall e :: e in es ==> Possible(e) && Whole(e)
    requires Balanced(s.dev, n, false)
    ensures Balanced(Run(s, es).dev, CountTrials(s, es, n), false)
    ensures PendingOf(Run(s, es).dev) != NoSlot ==> CountTrials(s, es, n) + AttemptsLeft(Run(s, es).dev) <= 3
  {
    hide Balanced, Step, Trials, StepLoses;
    if es == [] {
      BalancedBound(s.dev, n);
    } else {
      AtMostThreeTrials(s, es[..|es| - 1], n);
      StepBalanced(Run(s, es[..|es| - 1]), es[|es| - 1], CountTrials(s, es[..|es| - 1], n));
      BalancedBound(Run(s, es).dev, CountTrials(s, es, n));
    }
  }

  function TrialsAt(s: System, es: seq<Event>, k: nat, n: nat): nat
    requires k <= |es| && forall e :: e in es ==> Possible(e)
  {
    CountTrials(s, es[..k], n)
  }

  lemma TrialsNext(s: System, es: seq<Event>, k: nat, n: nat)
    requires k < |es| && forall e :: e in es ==> Possible(e)
    ensures TrialsAt(s, es, 0, n) == n
    ensures TrialsAt(s, es, k + 1, n) == Trials(StateAt(s, es, k), es[k], TrialsAt(s, es, k, n))
  {
    assert es[..k + 1][..k] == es[..k] && es[..k + 1][k] == es[k];
  }

  /** Throughout a run, trials made plus attempts left is what was granted, exactly if no boot decision loses an
      attempt. */
  lemma TrialsConserved(s: System, es: seq<Event>, n: nat)
    requires forall e :: e in es ==> Possible(e) && Whole(e)
    requires Balanced(s.dev, n, true)
    ensures (forall k :: 0 <= k <= |es| ==> Balanced(StateAt(s, es, k).dev, TrialsAt(s, es, k, n), true))
            <==> (forall k :: 0 <= k < |es| ==> !StepLoses(StateAt(s, es, k), es[k]))
  {
    hide Step, Trials, StepLoses, StateAt, TrialsAt, AttemptsLeft;
    if forall k :: 0 <= k <= |es| ==> Balanced(StateAt(s, es, k).dev, TrialsAt(s, es, k, n), true) {
      forall k | 0 <= k < |es| ensures !StepLoses(StateAt(s, es, k), es[k]) {
        StateNext(s, es, k);
        TrialsNext(s, es, k, n);
        StepBalanced(StateAt(s, es, k), es[k], TrialsAt(s, es, k, n));
        assert Balanced(StateAt(s, es, k + 1).dev, TrialsAt(s, es, k + 1, n), true);
      }
    }
    if forall k :: 0 <= k < |es| ==> !StepLoses(StateAt(s, es, k), es[k]) {
      forall k | 0 <= k <= |es| ensures Balanced(StateAt(s, es, k).dev, TrialsAt(s, es, k, n), true) {
        BalancedUpTo(s, es, n, k);
      }
    }
  }

  lemma {:induction false} BalancedUpTo(s: System, es: seq<Event>, n: nat, k: nat)
    requires k <= |es| && forall e :: e in es ==> Possible(e) && Whole(e)
    requires Balanced(s.dev, n, true) && forall i :: 0 <= i < k ==> !StepLoses(StateAt(s, es, i), es[i])
    ensures Balanced(StateAt(s, es, k).dev, TrialsAt(s, es, k, n), true)
  {
    hide Step, Trials, StepLoses, StateAt, AttemptsLeft;
    if k == 0 {
      StateEnds(s, es);
    } else {
      BalancedUpTo(s, es, n, k - 1);
      StateNext(s, es, k - 1);
      TrialsNext(s, es, k - 1, n);
      StepBalanced(StateAt(s, es, k - 1), es[k - 1], TrialsAt(s, es, k - 1, n));
    }
  }
}
