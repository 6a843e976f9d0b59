/** The battery state machine: the handlers of each state, the four-event dispatch of a fault status, and the rule
    they amount to. */
module BmsFsm {

  datatype Mode = IdleDischarge | Charge | Secure

  datatype FaultStatus = FaultStatus(
    sensorFault: bool, overvoltage: bool, undervoltage: bool,
    overcurrent: bool, overtemperature: bool, undertemperature: bool)
  {
    /** Some fault other than undervoltage is active. */
    predicate Other() { sensorFault || overvoltage || overcurrent || overtemperature || undertemperature }

    predicate Temperature() { overtemperature || undertemperature }

    predicate Voltage() { overvoltage || undervoltage }
  }

  const NO_FAULTS := FaultStatus(false, false, false, false, false, false)

  datatype Event =
    | ChargerConnected | ChargerDisconnected
    | VoltageTooHigh | VoltageTooLow | VoltageNominal
    | TemperatureTooHigh | TemperatureTooLow | TemperatureNominal
    | CurrentTooHigh | CurrentNominal
    | SensorFault | SensorNominal

  datatype Context = Context(
    mode: Mode, charger: bool,
    voltageNominal: bool, temperatureNominal: bool, currentNominal: bool, sensorNominal: bool)
  {
    predicate AllNominal() { voltageNominal && temperatureNominal && currentNominal && sensorNominal }
  }

  const INITIAL := Context(IdleDischarge, false, true, true, true, true)

  // ---- one event ----

  /** What the base handler of an event does: it records the input and leaves the state alone. */
  function Recorded(c: Context, e: Event): Context {
    match e
    case ChargerConnected => c.(charger := true)
    case ChargerDisconnected => c.(charger := false)
    case VoltageTooHigh => c.(voltageNominal := false)
    case VoltageTooLow => c.(voltageNominal := false)
    case VoltageNominal => c.(voltageNominal := true)
    case TemperatureTooHigh => c.(temperatureNominal := false)
    case TemperatureTooLow => c.(temperatureNominal := false)
    case TemperatureNominal => c.(temperatureNominal := true)
    case CurrentTooHigh => c.(currentNominal := false)
    case CurrentNominal => c.(currentNominal := true)
    case SensorFault => c.(sensorNominal := false)
    case SensorNominal => c.(sensorNominal := true)
  }

  predicate IsFault(e: Event) {
    || e.VoltageTooHigh? || e.VoltageTooLow? || e.TemperatureTooHigh? || e.TemperatureTooLow?
    || e.CurrentTooHigh? || e.SensorFault?
  }

  predicate IsNominal(e: Event) {
    e.VoltageNominal? || e.TemperatureNominal? || e.CurrentNominal? || e.SensorNominal?
  }

  function Operating(charger: bool): Mode { if charger then Charge else IdleDischarge }

  /** The state after one event. */
  function Handle(c: Context, e: Event): Context {
    var d := Recorded(c, e);
    match c.mode
    case IdleDischarge =>
      if e.ChargerConnected? then d.(mode := Charge) else if IsFault(e) then d.(mode := Secure) else d
    case Charge =>
      if e.ChargerDisconnected? then d.(mode := IdleDischarge)
      else if IsFault(e) && !e.VoltageTooLow? then d.(mode := Secure)
      else d
    case Secure => if IsNominal(e) && d.AllNominal() then d.(mode := Operating(d.charger)) else d
  }

  // ---- one fault status ----

  function SensorEvent(s: FaultStatus): Event { if s.sensorFault then SensorFault else SensorNominal }

  function VoltageEvent(s: FaultStatus): Event {
    if s.overvoltage then VoltageTooHigh else if s.undervoltage then VoltageTooLow else VoltageNominal
  }

  function TemperatureEvent(s: FaultStatus): Event {
    if s.overtemperature then TemperatureTooHigh
    else if s.undertemperature then TemperatureTooLow
    else TemperatureNominal
  }

  function CurrentEvent(s: FaultStatus): Event { if s.overcurrent then CurrentTooHigh else CurrentNominal }

  /** The four events of a fault status, each handled in the state the previous one left. */
  function Dispatch(c: Context, s: FaultStatus): Context {
    Handle(Handle(Handle(Handle(c, SensorEvent(s)), VoltageEvent(s)), TemperatureEvent(s)), CurrentEvent(s))
  }

  /** The charger flag agrees with the operating state. */
  predicate Consistent(c: Context) {
    && (c.mode.IdleDischarge? ==> !c.charger)
    && (c.mode.Charge? ==> c.charger)
  }

  predicate Mirrors(c: Context, s: FaultStatus) {
    c.voltageNominal == !s.Voltage() && c.temperatureNominal == !s.Temperature()
    && c.currentNominal == !s.overcurrent && c.sensorNominal == !s.sensorFault
  }

  /** The mode a fault status leads to. Only undervoltage on the charger depends on what went before: charging goes on,
      and a Secure state that nothing but the sensors kept secure is left. */
  function Rule(c: Context, s: FaultStatus): Mode {
    if s.Other() then Secure
    else if !s.undervoltage then Operating(c.charger)
    else if !c.charger then Secure
    else if c.mode.Charge? || (c.voltageNominal && c.temperatureNominal && c.currentNominal) then Charge
    else Secure
  }

  lemma SensorStage(c: Context, s: FaultStatus)
    ensures Handle(c, SensorEvent(s)) == c.(sensorNominal := !s.sensorFault, mode :=
              if s.sensorFault then Secure
              else if c.mode.Secure? && c.voltageNominal && c.temperatureNominal && c.currentNominal
              then Operating(c.charger)
              else c.mode)
  {}

  lemma VoltageStage(c: Context, s: FaultStatus)
    ensures Handle(c, VoltageEvent(s)) == c.(voltageNominal := !s.Voltage(), mode :=
              if s.overvoltage then Secure
              else if s.undervoltage then (if c.mode.Charge? then Charge else Secure)
              else if c.mode.Secure? && c.temperatureNominal && c.currentNominal && c.sensorNominal
              then Operating(c.charger)
              else c.mode)
  {}

  lemma TemperatureStage(c: Context, s: FaultStatus)
    ensures Handle(c, TemperatureEvent(s)) == c.(temperatureNominal := !s.Temperature(), mode :=
              if s.Temperature() then Secure
              else if c.mode.Secure? && c.voltageNominal && c.currentNominal && c.sensorNominal
              then Operating(c.charger)
              else c.mode)
  {}

  lemma CurrentStage(c: Context, s: FaultStatus)
    ensures Handle(c, CurrentEvent(s)) == c.(currentNominal := !s.overcurrent, mode :=
              if s.overcurrent then Secure
              else if c.mode.Secure? && c.voltageNominal && c.temperatureNominal && c.sensorNominal
              then Operating(c.charger)
              else c.mode)
  {}

  /** The sequential dispatch, with its transient states, amounts to the rule. */
  lemma DispatchFollowsRule(c: Context, s: FaultStatus)
    requires Consistent(c)
    ensures Mirrors(Dispatch(c, s), s) && Dispatch(c, s).charger == c.charger
    ensures Dispatch(c, s).mode == Rule(c, s)
    ensures Consistent(Dispatch(c, s))
  {
    hide Handle, SensorEvent, VoltageEvent, TemperatureEvent, CurrentEvent;
    var c1 := Handle(c, SensorEvent(s));
    SensorStage(c, s);
    var c2 := Handle(c1, VoltageEvent(s));
    VoltageStage(c1, s);
    var c3 := Handle(c2, TemperatureEvent(s));
    TemperatureStage(c2, s);
    CurrentStage(c3, s);
  }

  // ---- transient states ----

  /** The contexts after the first, the first two and the first three events of a fault status. */
  function AfterSensor(c: Context, s: FaultStatus): Context { Handle(c, SensorEvent(s)) }

  function AfterVoltage(c: Context, s: FaultStatus): Context { Handle(AfterSensor(c, s), VoltageEvent(s)) }

  function AfterTemperature(c: Context, s: FaultStatus): Context { Handle(AfterVoltage(c, s), TemperatureEvent(s)) }

  /** The events that come first clear a secured context's flags one after another, up to the stale ones behind them. */
  predicate ClearsEarly(c: Context, s: FaultStatus) {
    && !s.sensorFault && c.currentNominal
    && (|| (c.voltageNominal && c.temperatureNominal)
        || (!s.Voltage() && c.temperatureNominal)
        || (!s.Voltage() && !s.Temperature()))
  }

  /** A dispatch that begins and ends in Secure leaves it in between exactly if the flags that have not been updated
      yet are stale in this way. */
  lemma LeavesSecureIff(c: Context, s: FaultStatus)
    requires Consistent(c) && c.mode == Secure && Rule(c, s) == Secure
    ensures Dispatch(c, s).mode == Secure
    ensures ClearsEarly(c, s) <==>
              || AfterSensor(c, s).mode != Secure || AfterVoltage(c, s).mode != Secure
              || AfterTemperature(c, s).mode != Secure
  {
    DispatchFollowsRule(c, s);
    hide Handle, SensorEvent, VoltageEvent, TemperatureEvent, CurrentEvent, Dispatch;
    SensorStage(c, s);
    VoltageStage(AfterSensor(c, s), s);
    TemperatureStage(AfterVoltage(c, s), s);
  }

  // ---- locked steps ----

  /** The state between locked steps: the flags mirror the stored fault status, and the mode fits them. */
  predicate Settled(c: Context, s: FaultStatus) {
    && Mirrors(c, s)
    && (c.mode.IdleDischarge? ==> !c.charger && s == NO_FAULTS)
    && (c.mode.Charge? ==> c.charger && !s.Other())
    && (s == NO_FAULTS ==> c.mode == Operating(c.charger))
  }

  /** A locked step: a new fault status arrives, or the charger is plugged in or out. */
  datatype Locked = NewFaults(status: FaultStatus) | NewCharger(connected: bool)

  datatype Guard = Guard(context: Context, faults: FaultStatus)

  function LockedStep(g: Guard, l: Locked): Guard {
    match l
    case NewFaults(s) => Guard(Dispatch(g.context, s), s)
    case NewCharger(on) =>
      var c := Handle(g.context, if on then ChargerConnected else ChargerDisconnected);
      Guard(Dispatch(c, g.faults), g.faults)
  }

  function RunGuard(steps: seq<Locked>): Guard {
    if steps == [] then Guard(INITIAL, NO_FAULTS) else LockedStep(RunGuard(steps[..|steps| - 1]), steps[|steps| - 1])
  }

  /** Where plugging the charger in or out leads: with undervoltage, plugging it out secures and plugging it in
      changes nothing. */
  function ChargerRule(g: Guard, connected: bool): Mode {
    if g.faults.Other() then Secure
    else if !g.faults.undervoltage then Operating(connected)
    else if connected then g.context.mode
    else Secure
  }

  lemma LockedStepSettles(g: Guard, l: Locked)
    requires Settled(g.context, g.faults)
    ensures var h := LockedStep(g, l); Settled(h.context, h.faults)
    ensures l.NewFaults? ==> LockedStep(g, l).context.mode == Rule(g.context, l.status)
    ensures l.NewCharger? ==> LockedStep(g, l).context.mode == ChargerRule(g, l.connected)
  {
    hide Dispatch;
    match l
    case NewFaults(s) => DispatchFollowsRule(g.context, s);
    case NewCharger(on) =>
      var c := Handle(g.context, if on then ChargerConnected else ChargerDisconnected);
      DispatchFollowsRule(c, g.faults);
  }

  /** After every locked step of every run: IdleDischarge only without charger and without a fault, Charge only with the
      charger and without a fault but undervoltage, and the flags mirror the fault status. */
  lemma {:induction false} AlwaysSettled(steps: seq<Locked>)
    ensures var g := RunGuard(steps); Settled(g.context, g.faults)
  {
    if steps != [] {
      AlwaysSettled(steps[..|steps| - 1]);
      LockedStepSettles(RunGuard(steps[..|steps| - 1]), steps[|steps| - 1]);
    }
  }

  /** A battery that is secured while undervoltage is active stays secured as long as undervoltage stays active,
      whatever the charger and the other faults do. */
  lemma {:induction false} UndervoltageKeepsSecure(before: seq<Locked>, after: seq<Locked>)
    requires RunGuard(before).faults.undervoltage && RunGuard(before).context.mode == Secure
    requires forall i :: 0 <= i < |after| && after[i].NewFaults? ==> after[i].status.undervoltage
    ensures var g := RunGuard(before + after); g.faults.undervoltage && g.context.mode == Secure
  {
    if after == [] {
      assert before + after == before;
    } else {
      var n := |after| - 1;
      UndervoltageKeepsSecure(before, after[..n]);
      assert (before + after)[..|before + after| - 1] == before + after[..n];
      AlwaysSettled(before + after[..n]);
      LockedStepSettles(RunGuard(before + after[..n]), after[n]);
    }
  }

  const SENSOR_FAULT := FaultStatus(true, false, false, false, false, false)
  const OVERCURRENT := FaultStatus(false, false, false, true, false, false)
  const UNDERVOLTAGE_ONLY := FaultStatus(false, false, true, false, false, false)

  lemma RunOfOne(l: Locked)
    ensures RunGuard([l]) == LockedStep(Guard(INITIAL, NO_FAULTS), l)
  {
    hide LockedStep;
    assert [l][..0] == [];
  }

  lemma RunOfTwo(k: Locked, l: Locked)
    ensures RunGuard([k, l]) == LockedStep(LockedStep(Guard(INITIAL, NO_FAULTS), k), l)
  {
    hide LockedStep;
    assert [k, l][..1] == [k];
    RunOfOne(k);
  }

  /** The context a dispatch leaves, from a consistent one. */
  lemma DispatchContext(c: Context, s: FaultStatus)
    requires Consistent(c)
    ensures Dispatch(c, s)
            == Context(Rule(c, s), c.charger, !s.Voltage(), !s.Temperature(), !s.overcurrent, !s.sensorFault)
  {
    DispatchFollowsRule(c, s);
    hide Dispatch, Rule;
  }

  /** A run on which it happens: a sensor fault secures the battery, and when the sensor works again while overcurrent
      appears, the discharge state is entered and left within one dispatch. */
  lemma TransientDischarge()
    ensures var c := RunGuard([NewFaults(SENSOR_FAULT)]).context;
            && c.mode == Secure
            && AfterSensor(c, OVERCURRENT).mode == IdleDischarge && Dispatch(c, OVERCURRENT).mode == Secure
            && RunGuard([NewFaults(SENSOR_FAULT), NewFaults(OVERCURRENT)]).context == Dispatch(c, OVERCURRENT)
  {
    RunOfOne(NewFaults(SENSOR_FAULT));
    RunOfTwo(NewFaults(SENSOR_FAULT), NewFaults(OVERCURRENT));
    DispatchContext(INITIAL, SENSOR_FAULT);
    var c := Dispatch(INITIAL, SENSOR_FAULT);
    SensorStage(c, OVERCURRENT);
    DispatchContext(c, OVERCURRENT);
    hide Dispatch, Handle, SensorEvent, RunGuard;
  }

  lemma PluggedIn(c: Context)
    ensures Handle(c, ChargerConnected) == c.(charger := true, mode := if c.mode.IdleDischarge? then Charge else c.mode)
  {}

  /** Two runs that end with the same charger and the same faults, undervoltage alone, in different modes: charging
      goes on when the charger was there first, and does not begin when the undervoltage was. */
  lemma UndervoltageRemembers()
    ensures var charging := RunGuard([NewCharger(true), NewFaults(UNDERVOLTAGE_ONLY)]);
            var secured := RunGuard([NewFaults(UNDERVOLTAGE_ONLY), NewCharger(true)]);
            && charging.faults == secured.faults == UNDERVOLTAGE_ONLY
            && charging.context.charger && secured.context.charger
            && charging.context.mode == Charge && secured.context.mode == Secure
  {
    RunOfTwo(NewCharger(true), NewFaults(UNDERVOLTAGE_ONLY));
    RunOfTwo(NewFaults(UNDERVOLTAGE_ONLY), NewCharger(true));
    hide Dispatch, RunGuard;
    PluggedIn(INITIAL);
    var plugged := Handle(INITIAL, ChargerConnected);
    DispatchContext(plugged, NO_FAULTS);
    DispatchContext(Dispatch(plugged, NO_FAULTS), UNDERVOLTAGE_ONLY);
    DispatchContext(INITIAL, UNDERVOLTAGE_ONLY);
    var low := Dispatch(INITIAL, UNDERVOLTAGE_ONLY);
    PluggedIn(low);
    DispatchContext(Handle(low, ChargerConnected), UNDERVOLTAGE_ONLY);
    hide Handle;
  }

  // ---- the context object ----

  class BmsFsmContext {
    var mode: Mode
    var charger: bool
    var voltageNominal: bool
    var temperatureNominal: bool
    var currentNominal: bool
    var sensorNominal: bool

    function View(): Context
      reads this
    {
      Context(mode, charger, voltageNominal, temperatureNominal, currentNominal, sensorNominal)
    }

    constructor ()
      ensures View() == INITIAL
    {
      mode, charger := IdleDischarge, false;
      voltageNominal, temperatureNominal, currentNominal, sensorNominal := true, true, true, true;
    }

    method ReturnToOperatingState()
      modifies this
      ensures View() == old(View()).(mode := Operating(charger))
    {
      if charger {
        mode := Charge;
      } else {
        mode := IdleDischarge;
      }
    }

    /** The handlers of the base state. */
    method Record(e: Event)
      modifies this
      ensures View() == Recorded(old(View()), e)
    {
      match e
      case ChargerConnected => charger := true;
      case ChargerDisconnected => charger := false;
      case VoltageTooHigh => voltageNominal := false;
      case VoltageTooLow => voltageNominal := false;
      case VoltageNominal => voltageNominal := true;
      case TemperatureTooHigh => temperatureNominal := false;
      case TemperatureTooLow => temperatureNominal := false;
      case TemperatureNominal => temperatureNominal := true;
      case CurrentTooHigh => currentNominal := false;
      case CurrentNominal => currentNominal := true;
      case SensorFault => sensorNominal := false;
      case SensorNominal => sensorNominal := true;
    }

    method HandleIdleDischarge(e: Event)
      requires mode == IdleDischarge
      modifies this
      ensures View() == Handle(old(View()), e)
    {
      Record(e);
      if e.ChargerConnected? {
        mode := Charge;
      } else if IsFault(e) {
        mode := Secure;
      }
    }

    method HandleCharge(e: Event)
      requires mode == Charge
      modifies this
      ensures View() == Handle(old(View()), e)
    {
      Record(e);
      if e.ChargerDisconnected? {
        mode := IdleDischarge;
      } else if IsFault(e) && !e.VoltageTooLow? {
        mode := Secure;
      }
    }

    method HandleSecure(e: Event)
      requires mode == Secure
      modifies this
      ensures View() == Handle(old(View()), e)
    {
      Record(e);
      if IsNominal(e) && voltageNominal && temperatureNominal && currentNominal && sensorNominal {
        ReturnToOperatingState();
      }
    }

    /** Hands an event to the current state. */
    method HandleEvent(e: Event)
      modifies this
      ensures View() == Handle(old(View()), e)
    {
      match mode
      case IdleDischarge => HandleIdleDischarge(e);
      case Charge => HandleCharge(e);
      case Secure => HandleSecure(e);
    }

    /** Raises the four events of a fault status, one after another. */
    method UpdateFaultStatus(s: FaultStatus)
      modifies this
      ensures View() == Dispatch(old(View()), s)
    {
      hide Handle;
      HandleEvent(if s.sensorFault then SensorFault else SensorNominal);
      if s.overvoltage {
        HandleEvent(VoltageTooHigh);
      } else if s.undervoltage {
        HandleEvent(VoltageTooLow);
      } else {
        HandleEvent(VoltageNominal);
      }
      if s.overtemperature {
        HandleEvent(TemperatureTooHigh);
      } else if s.undertemperature {
        HandleEvent(TemperatureTooLow);
      } else {
        HandleEvent(TemperatureNominal);
      }
      HandleEvent(if s.overcurrent then CurrentTooHigh else CurrentNominal);
    }
  }
}
