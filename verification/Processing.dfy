/** The protection chain: filters, detectors and state machine, related to the whole history of messages. */
module Processing {
  import opened RawInputs
  import opened MedianFilter
  import opened Sequences
  import opened FaultRules
  import opened BmsFsm

  // ---- histories ----

  datatype Input = Message(raw: RawInputs) | ChargerChange(connected: bool)

  datatype Reading = NoReading | Reading(valid: bool, value: int)

  function ReadingOf(x: Input, ch: Channel): Reading {
    if x.Message? && x.raw.IsNew(ch) then Reading(x.raw.Of(ch).valid, x.raw.Of(ch).value) else NoReading
  }

  /** The valid samples of a channel. */
  function Samples(log: seq<Input>, ch: Channel): seq<int> {
    if log == [] then []
    else
      var r := ReadingOf(log[|log| - 1], ch);
      Samples(log[..|log| - 1], ch) + if r.Reading? && r.valid then [r.value] else []
  }

  /** The messages among the inputs. */
  function Messages(log: seq<Input>): seq<RawInputs> {
    if log == [] then []
    else
      var x := log[|log| - 1];
      Messages(log[..|log| - 1]) + if x.Message? then [x.raw] else []
  }

  function LastReading(log: seq<Input>, ch: Channel): Reading {
    if log == [] then NoReading
    else
      var r := ReadingOf(log[|log| - 1], ch);
      if r.Reading? then r else LastReading(log[..|log| - 1], ch)
  }

  predicate Broken(log: seq<Input>, ch: Channel) {
    var r := LastReading(log, ch);
    r.Reading? && !r.valid
  }

  predicate Working(log: seq<Input>, ch: Channel) {
    var r := LastReading(log, ch);
    r.Reading? && r.valid
  }

  ghost predicate Limit(log: seq<Input>, ch: Channel, b: Band) {
    Latched(Filtered(Samples(log, ch)), b)
  }

  function Currents(log: seq<Input>): seq<int> {
    Filtered(Samples(log, Current))
  }

  /** The fault status a history amounts to. */
  ghost function FaultsOf(log: seq<Input>): FaultStatus {
    FaultStatus(
      Broken(log, Voltage) || Broken(log, Current) || Broken(log, Temperature),
      Limit(log, Voltage, OVERVOLTAGE), Limit(log, Voltage, UNDERVOLTAGE),
      PhaseOf(Currents(log)).Tripped?,
      Limit(log, Temperature, OVERTEMPERATURE), Limit(log, Temperature, UNDERTEMPERATURE))
  }

  /** The state machine after a history of locked steps. */
  ghost function GuardOf(log: seq<Input>): Guard {
    if log == [] then Guard(INITIAL, NO_FAULTS)
    else LockedStep(GuardOf(log[..|log| - 1]), StepOf(log))
  }

  ghost function StepOf(log: seq<Input>): Locked
    requires log != []
  {
    match log[|log| - 1]
    case Message(_) => NewFaults(FaultsOf(log))
    case ChargerChange(on) => NewCharger(on)
  }

  function Shown(samples: seq<int>): int {
    if samples == [] then 0 else Median(Last(samples, WINDOW))
  }

  /** What the filters show, and which channels worked last. */
  datatype ProcessedInputs = ProcessedInputs(
    voltage: int, current: int, temperature: int,
    voltageValid: bool, currentValid: bool, temperatureValid: bool,
    voltageNew: bool, currentNew: bool, temperatureNew: bool)

  function ProcessedOf(log: seq<Input>): ProcessedInputs {
    ProcessedInputs(
      Shown(Samples(log, Voltage)), Shown(Samples(log, Current)), Shown(Samples(log, Temperature)),
      Working(log, Voltage), Working(log, Current), Working(log, Temperature), false, false, false)
  }

  // ---- one more input ----

  lemma HistorySnoc(log: seq<Input>, x: Input, ch: Channel)
    ensures var r := ReadingOf(x, ch);
      && Samples(log + [x], ch) == Samples(log, ch) + (if r.Reading? && r.valid then [r.value] else [])
      && LastReading(log + [x], ch) == if r.Reading? then r else LastReading(log, ch)
  {
    assert (log + [x])[..|log|] == log;
  }

  /** A latch follows the filtered value of a valid new reading, and keeps its state otherwise. */
  lemma LimitSnoc(log: seq<Input>, x: Input, ch: Channel, b: Band, v: int)
    requires b.Proper()
    requires v == Shown(Samples(log + [x], ch))
    ensures Limit(log + [x], ch, b) ==
            if ReadingOf(x, ch).Reading? && ReadingOf(x, ch).valid
            then b.Trips(v) || (Limit(log, ch, b) && !b.Recovers(v))
            else Limit(log, ch, b)
  {
    hide Latched, Median, Filtered, Last, Samples, LastReading;
    HistorySnoc(log, x, ch);
    var s := Samples(log, ch);
    var r := ReadingOf(x, ch);
    if r.Reading? && r.valid {
      FilteredSnoc(s, r.value);
      LatchedSnoc(Filtered(s), v, b);
    } else {
      assert s + [] == s;
    }
  }

  lemma CurrentsSnoc(log: seq<Input>, x: Input)
    ensures Currents(log + [x]) == Currents(log) +
              if ReadingOf(x, Current).Reading? && ReadingOf(x, Current).valid
              then [Shown(Samples(log + [x], Current))] else []
  {
    hide Median, Filtered, Last, Samples, LastReading;
    HistorySnoc(log, x, Current);
    var s := Samples(log, Current);
    var r := ReadingOf(x, Current);
    if r.Reading? && r.valid {
      FilteredSnoc(s, r.value);
    } else {
      assert s + [] == s;
    }
  }

  // ---- what holds on every run ----

  lemma GuardSnoc(log: seq<Input>, x: Input)
    ensures GuardOf(log + [x]) == LockedStep(GuardOf(log), StepOf(log + [x]))
  {
    assert (log + [x])[..|log|] == log;
  }

  lemma ChargerKeepsFaults(log: seq<Input>, on: bool)
    ensures FaultsOf(log + [ChargerChange(on)]) == FaultsOf(log)
    ensures ProcessedOf(log + [ChargerChange(on)]) == ProcessedOf(log)
    ensures forall ch :: Samples(log + [ChargerChange(on)], ch) == Samples(log, ch)
    ensures forall ch :: LastReading(log + [ChargerChange(on)], ch) == LastReading(log, ch)
  {
    hide Latched, Median, Filtered, Last, Samples, LastReading, PhaseOf;
    forall ch
      ensures Samples(log + [ChargerChange(on)], ch) == Samples(log, ch)
      ensures LastReading(log + [ChargerChange(on)], ch) == LastReading(log, ch)
    {
      HistorySnoc(log, ChargerChange(on), ch);
    }
  }

  /** On every run the state machine works with the fault status of the whole history, and is settled for it. */
  lemma {:induction false} AlwaysProtected(log: seq<Input>)
    ensures GuardOf(log).faults == FaultsOf(log)
    ensures Settled(GuardOf(log).context, FaultsOf(log))
  {
    hide Latched, Filtered, PhaseOf, LockedStep, Settled;
    if log == [] {
      StartsSettled();
    } else {
      var n := |log| - 1;
      AlwaysProtected(log[..n]);
      assert log == log[..n] + [log[n]];
      LockedStepSettles(GuardOf(log[..n]), StepOf(log));
      StepFaults(GuardOf(log[..n]), StepOf(log));
      if log[n].ChargerChange? {
        ChargerKeepsFaults(log[..n], log[n].connected);
      }
    }
  }

  lemma MessageStep(log: seq<Input>, raw: RawInputs)
    ensures GuardOf(log + [Message(raw)]).context == Dispatch(GuardOf(log).context, FaultsOf(log + [Message(raw)]))
  {
    hide FaultsOf, Dispatch;
    GuardSnoc(log, Message(raw));
  }

  lemma ChargerStep(log: seq<Input>, on: bool)
    ensures GuardOf(log + [ChargerChange(on)]).context ==
            Dispatch(Handle(GuardOf(log).context, if on then ChargerConnected else ChargerDisconnected), FaultsOf(log))
  {
    hide FaultsOf, Dispatch, Handle, Settled;
    GuardSnoc(log, ChargerChange(on));
    AlwaysProtected(log);
  }

  lemma StepFaults(g: Guard, l: Locked)
    ensures LockedStep(g, l).faults == if l.NewFaults? then l.status else g.faults
  {}

  lemma StartsSettled()
    ensures FaultsOf([]) == NO_FAULTS && Settled(INITIAL, NO_FAULTS)
  {
    assert Filtered([]) == [];
    assert forall b :: !Latched([], b);
  }

  /** Four successive valid voltage samples above the limit put the battery in Secure, whatever came before or
      between. */
  lemma OvervoltageSecures(log: seq<Input>)
    requires var s := Samples(log, Voltage); |s| >= 4 && forall i :: |s| - 4 <= i < |s| ==> s[i] > 40000
    ensures GuardOf(log).context.mode == Secure
  {
    hide Latched, Filtered, Median, PhaseOf, LockedStep, Samples;
    AlwaysProtected(log);
    FourSamplesDecide(Samples(log, Voltage), OVERVOLTAGE);
  }

  /** Successive valid current samples that have reached 150 A for 506 samples, 120 A for 1006 or 100 A for 2006, or
      170 A for seven, put the battery in Secure, whatever came before or between. */
  lemma OvercurrentSecures(log: seq<Input>, n: nat, level: nat)
    requires Overload(Samples(log, Current), n, level)
    ensures GuardOf(log).context.mode == Secure
  {
    hide Latched, Filtered, Median, PhaseOf, LockedStep, Samples, Overload;
    AlwaysProtected(log);
    RawOverloadTrips(Samples(log, Current), n, level);
  }

  predicate Invalid(r: Reading) { r.Reading? && !r.valid }

  /** The sensor fault is active exactly while the last reading of some channel is not valid, and then the battery is in
      Secure. */
  lemma SensorFaultIff(log: seq<Input>)
    ensures var g := GuardOf(log);
            && (g.faults.sensorFault <==> exists ch :: Invalid(LastReading(log, ch)))
            && (g.faults.sensorFault ==> g.context.mode == Secure)
  {
    hide Latched, Filtered, PhaseOf, LockedStep, LastReading, Currents, Samples;
    AlwaysProtected(log);
    BrokenIff(log);
  }

  lemma BrokenIff(log: seq<Input>)
    ensures FaultsOf(log).sensorFault <==> exists ch :: Invalid(LastReading(log, ch))
  {
    hide Limit, LastReading, Currents, PhaseOf;
    if FaultsOf(log).sensorFault {
      var ch := if Broken(log, Voltage) then Voltage else if Broken(log, Current) then Current else Temperature;
      assert Invalid(LastReading(log, ch));
    } else {
      forall ch ensures !Invalid(LastReading(log, ch)) {
        assert ch == Voltage || ch == Current || ch == Temperature;
        assert !Broken(log, ch);
      }
    }
  }

  /** Whether the charger was last plugged in. */
  predicate ChargerIn(log: seq<Input>) {
    log != []
    && (var x := log[|log| - 1]; if x.ChargerChange? then x.connected else ChargerIn(log[..|log| - 1]))
  }

  lemma {:induction false} ChargerFollows(log: seq<Input>)
    ensures GuardOf(log).context.charger == ChargerIn(log)
  {
    hide FaultsOf, Dispatch;
    if log != [] {
      var n := |log| - 1;
      var c := GuardOf(log[..n]).context;
      ChargerFollows(log[..n]);
      AlwaysProtected(log[..n]);
      match log[n]
      case Message(_) =>
        DispatchFollowsRule(c, FaultsOf(log));
      case ChargerChange(on) =>
        DispatchFollowsRule(Handle(c, if on then ChargerConnected else ChargerDisconnected), GuardOf(log[..n]).faults);
    }
  }

  /** Four successive valid temperature samples above 60 degrees, or below -20, put the battery in Secure; four voltage
      samples below 29 V do so without the charger, and end the discharge with it. */
  lemma OtherLimitsSecure(log: seq<Input>)
    ensures FourAbove(Samples(log, Temperature), 60000) ==> GuardOf(log).context.mode == Secure
    ensures FourBelow(Samples(log, Temperature), -20000) ==> GuardOf(log).context.mode == Secure
    ensures FourBelow(Samples(log, Voltage), 29000) ==>
              var g := GuardOf(log);
              g.faults.undervoltage && g.context.mode != IdleDischarge && (!ChargerIn(log) ==> g.context.mode == Secure)
  {
    hide Latched, Filtered, Median, PhaseOf, LockedStep, Samples, Currents, Broken, ChargerIn;
    AlwaysProtected(log);
    ChargerFollows(log);
    var t, u := Samples(log, Temperature), Samples(log, Voltage);
    if |t| >= 4 {
      FourSamplesDecide(t, OVERTEMPERATURE);
      FourSamplesDecide(t, UNDERTEMPERATURE);
    }
    if |u| >= 4 {
      FourSamplesDecide(u, UNDERVOLTAGE);
    }
  }

  /** Every channel's last reading, if there is one, is valid. */
  predicate SensorsWork(log: seq<Input>) {
    !Broken(log, Voltage) && !Broken(log, Current) && !Broken(log, Temperature)
  }

  lemma OperatesWithoutFaults(log: seq<Input>)
    requires FaultsOf(log) == NO_FAULTS
    ensures GuardOf(log).faults == NO_FAULTS && GuardOf(log).context.mode == Operating(ChargerIn(log))
  {
    hide FaultsOf, LockedStep;
    AlwaysProtected(log);
    ChargerFollows(log);
  }

  /** No false alarm: while the sensors work and no valid sample ever went beyond a limit or reached 100 A, the battery
      discharges or charges as the charger says. */
  lemma NoFalseAlarm(log: seq<Input>)
    requires SensorsWork(log)
    requires forall i :: 0 <= i < |Samples(log, Voltage)| ==> 29000 <= Samples(log, Voltage)[i] <= 40000
    requires forall i :: 0 <= i < |Samples(log, Temperature)| ==> -20000 <= Samples(log, Temperature)[i] <= 60000
    requires forall i :: 0 <= i < |Samples(log, Current)| ==> -100_000 < Samples(log, Current)[i] < 100_000
    ensures GuardOf(log).faults == NO_FAULTS && GuardOf(log).context.mode == Operating(ChargerIn(log))
  {
    hide Latched, Filtered, Median, PhaseOf, LockedStep, Samples, Broken, ChargerIn;
    WithinLimit(Samples(log, Voltage), OVERVOLTAGE);
    WithinLimit(Samples(log, Voltage), UNDERVOLTAGE);
    WithinLimit(Samples(log, Temperature), OVERTEMPERATURE);
    WithinLimit(Samples(log, Temperature), UNDERTEMPERATURE);
    RawQuietNeverTrips(Samples(log, Current));
    OperatesWithoutFaults(log);
  }

  /** Secure is left: four good samples of voltage and temperature and 106 currents below 90 A clear every fault,
      whatever came before, once the sensors work. */
  lemma BackToOperation(log: seq<Input>)
    requires SensorsWork(log)
    requires FourAbove(Samples(log, Voltage), 30000) && FourBelow(Samples(log, Voltage), 35000)
    requires FourAbove(Samples(log, Temperature), -15000) && FourBelow(Samples(log, Temperature), 55000)
    requires var s := Samples(log, Current);
             |s| >= 106 && forall i :: |s| - 106 <= i < |s| ==> -90_000 < s[i] < 90_000
    ensures GuardOf(log).faults == NO_FAULTS && GuardOf(log).context.mode == Operating(ChargerIn(log))
  {
    hide Latched, Filtered, Median, PhaseOf, LockedStep, Samples, Broken, ChargerIn;
    FourSamplesDecide(Samples(log, Voltage), OVERVOLTAGE);
    FourSamplesDecide(Samples(log, Voltage), UNDERVOLTAGE);
    FourSamplesDecide(Samples(log, Temperature), OVERTEMPERATURE);
    FourSamplesDecide(Samples(log, Temperature), UNDERTEMPERATURE);
    RawLowRecovers(Samples(log, Current));
    OperatesWithoutFaults(log);
  }

  /** Over- and undervoltage, and over- and undertemperature, are never active together. */
  lemma NoOppositeFaults(log: seq<Input>)
    ensures var f := GuardOf(log).faults;
            !(f.overvoltage && f.undervoltage) && !(f.overtemperature && f.undertemperature)
  {
    hide Latched, Filtered, PhaseOf, LockedStep, Samples, Settled;
    AlwaysProtected(log);
    NeverBoth(Filtered(Samples(log, Voltage)), OVERVOLTAGE, UNDERVOLTAGE);
    NeverBoth(Filtered(Samples(log, Temperature)), OVERTEMPERATURE, UNDERTEMPERATURE);
  }
}
