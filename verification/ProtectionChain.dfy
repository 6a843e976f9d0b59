/** The two threads together, from the sensor samples to the state of the battery. */
module ProtectionChain {
  import opened RawInputs
  import opened DropOldestQueue
  import opened BmsFsm
  import opened Processing
  import opened Acquisition
  import opened ProcessingThread
  import FaultRules

  /** A sensor delivers a sample, the acquisition thread handles one, the processing thread handles a message while the
      charger is switched, or the charger is switched. */
  datatype Turn = Arrive(sample: SensorSample) | Sense | Process(switches: seq<bool>) | Switch(connected: bool)

  /** Both threads are sound, and the processing thread has handled exactly the messages popped from the queue between
      them. */
  ghost predicate Linked(acq: AcquisitionThreadCore, core: ProcessingThreadCore)
    reads acq.Parts(), core.Parts()
  {
    acq.Valid() && core.Valid() && Messages(core.log) == acq.sink.trace.popped
  }

  method TakeTurn(acq: AcquisitionThreadCore, core: ProcessingThreadCore, turn: Turn)
    requires Linked(acq, core)
    modifies acq.Parts(), core.Parts()
    ensures Linked(acq, core)
  {
    hide AcquisitionThreadCore.Valid, ProcessingThreadCore.Valid, Messages, AfterPop, AfterPush;
    match turn
    case Arrive(sample) => Deliver(acq, sample);
    case Sense => SenseOne(acq);
    case Process(switches) => ProcessOne(acq, core, switches);
    case Switch(connected) => SwitchCharger(core, connected);
  }

  method Deliver(acq: AcquisitionThreadCore, sample: SensorSample)
    requires acq.Valid()
    modifies acq.sensorQueue, acq.sensorQueue.items
    ensures acq.Valid() && acq.Taken() == old(acq.Taken())
  {
    acq.sensorQueue.Push(sample);
  }

  method SenseOne(acq: AcquisitionThreadCore)
    requires acq.Valid()
    modifies acq.Parts()
    ensures acq.Valid() && acq.sink.trace.popped == old(acq.sink.trace.popped)
  {
    ghost var before := acq.Taken();
    var ok, sample := acq.sensorQueue.Pop(SensorSample(Voltage, 0, 0, false));
    if ok {
      acq.Step(sample, before);
    }
  }

  method ProcessOne(acq: AcquisitionThreadCore, core: ProcessingThreadCore, switches: seq<bool>)
    requires Linked(acq, core)
    modifies acq.sink, acq.sink.items, core.Parts()
    ensures Linked(acq, core)
  {
    hide ProcessingThreadCore.Valid, Messages, Published, AfterPush, DropOldestQueue.Select;
    var ok, raw := acq.sink.Pop(NO_INPUTS);
    if ok {
      Serve(core, acq.sink, raw, Between([], [], switches));
    }
  }

  method SwitchCharger(core: ProcessingThreadCore, connected: bool)
    requires core.Valid()
    modifies core.Parts()
    ensures core.Valid() && Messages(core.log) == old(Messages(core.log))
  {
    hide ProcessingThreadCore.LockedHolds, ProcessingThreadCore.FiltersHold, SameReadings;
    ghost var log := core.log;
    core.SwitchChargers([connected]);
    ChangesKeepReadings(log, [connected]);
    core.FiltersFollow(log, core.log);
  }

  /** Every schedule of the two threads keeps them linked. */
  method RunThreads(acq: AcquisitionThreadCore, core: ProcessingThreadCore, turns: seq<Turn>)
    requires Linked(acq, core)
    modifies acq.Parts(), core.Parts()
    ensures Linked(acq, core)
  {
    hide Linked;
    for i := 0 to |turns|
      invariant Linked(acq, core)
    {
      TakeTurn(acq, core, turns[i]);
    }
  }

  /** The threads as they start are linked. */
  method StartThreads() returns (acq: AcquisitionThreadCore, core: ProcessingThreadCore)
    ensures Linked(acq, core) && fresh(acq.Parts()) && fresh(core.Parts()) && acq.Taken() == [] && core.log == []
  {
    hide ProcessingThreadCore.Valid;
    var sink := new Queue(NO_INPUTS);
    acq := new AcquisitionThreadCore(sink);
    core := new ProcessingThreadCore();
  }

  /** The samples whose messages have reached the processing thread. */
  ghost function Arrived(acq: AcquisitionThreadCore): seq<SensorSample>
    requires acq.Valid()
    reads acq.Parts()
  {
    Select(acq.Taken(), acq.sink.trace.served, true)
  }

  /** The detectors have seen, of every channel, exactly the valid readings that have arrived, once and in order. */
  lemma DetectorsSeeArrived(acq: AcquisitionThreadCore, core: ProcessingThreadCore, ch: Channel)
    requires Linked(acq, core)
    ensures Samples(core.log, ch) == Readings(Arrived(acq), ch)
    ensures LastReading(core.log, ch) == LastStored(Arrived(acq), ch)
  {
    SamplesOfMessages(core.log, ch);
    ReadingsArrive(acq.Taken(), acq.sink.trace.served, ch);
  }

  /** If the last four valid voltage readings that have arrived lie above 40 V, the battery is in Secure, whatever the
      other channels, the charger, the dropped messages and the earlier history did. */
  lemma HighVoltageSecures(acq: AcquisitionThreadCore, core: ProcessingThreadCore)
    requires Linked(acq, core)
    requires var r := Readings(Arrived(acq), Voltage); |r| >= 4 && forall i :: |r| - 4 <= i < |r| ==> r[i] > 40000
    ensures core.fsm.mode == Secure
  {
    DetectorsSeeArrived(acq, core, Voltage);
    OvervoltageSecures(core.log);
  }

  /** And so it is after 506, 1006 or 2006 current readings in a row that reach 150, 120 or 100 A, or seven that reach
      170 A. */
  lemma OverloadSecures(acq: AcquisitionThreadCore, core: ProcessingThreadCore, n: nat, level: nat)
    requires Linked(acq, core)
    requires FaultRules.Overload(Readings(Arrived(acq), Current), n, level)
    ensures core.fsm.mode == Secure
  {
    DetectorsSeeArrived(acq, core, Current);
    OvercurrentSecures(core.log, n, level);
  }

  /** The core's sensor fault is active exactly while the last sample of some channel that has arrived is faulty, a
      negative voltage included, and then the battery is in Secure. */
  lemma FaultySensorSecures(acq: AcquisitionThreadCore, core: ProcessingThreadCore)
    requires Linked(acq, core)
    ensures core.faultStatus.sensorFault <==> exists i: nat :: LastFaulty(Arrived(acq), i)
    ensures core.faultStatus.sensorFault ==> core.fsm.mode == Secure
  {
    hide Samples, LastStored, LastReading, Readings, Arrived, LastFaulty, GuardOf;
    forall ch: Channel ensures LastReading(core.log, ch) == LastStored(Arrived(acq), ch) {
      DetectorsSeeArrived(acq, core, ch);
    }
    CoreFollows(core);
    FaultyIffSensorFault(core.log, Arrived(acq));
  }

  lemma FaultyIffSensorFault(log: seq<Input>, h: seq<SensorSample>)
    requires forall ch: Channel :: LastReading(log, ch) == LastStored(h, ch)
    ensures GuardOf(log).faults.sensorFault <==> exists i: nat :: LastFaulty(h, i)
    ensures GuardOf(log).faults.sensorFault ==> GuardOf(log).context.mode == Secure
  {
    hide LockedStep, LastFaulty;
    SomeFaultyIff(h);
    SensorFaultIff(log);
    if ch: Channel :| Invalid(LastReading(log, ch)) {
      assert LastReading(log, ch) == LastStored(h, ch);
      assert exists ch :: Invalid(LastStored(h, ch));
    }
    if ch: Channel :| Invalid(LastStored(h, ch)) {
      assert LastReading(log, ch) == LastStored(h, ch);
      assert exists ch :: Invalid(LastReading(log, ch));
    }
  }

  lemma CoreFollows(core: ProcessingThreadCore)
    requires core.Valid()
    ensures core.faultStatus == GuardOf(core.log).faults && core.fsm.View() == GuardOf(core.log).context
  {
    hide ProcessingThreadCore.FiltersHold, FlagsHold, FaultsOf, GuardOf, Settled;
    AlwaysProtected(core.log);
  }

  /** No valid reading that has arrived lies beyond a limit or reaches 100 A. */
  ghost predicate WithinLimits(h: seq<SensorSample>) {
    && (forall i :: 0 <= i < |Readings(h, Voltage)| ==> 29000 <= Readings(h, Voltage)[i] <= 40000)
    && (forall i :: 0 <= i < |Readings(h, Temperature)| ==> -20000 <= Readings(h, Temperature)[i] <= 60000)
    && (forall i :: 0 <= i < |Readings(h, Current)| ==> -100_000 < Readings(h, Current)[i] < 100_000)
  }

  /** The last readings that have arrived lie inside all recovery limits, long enough to clear every fault. */
  ghost predicate Recovering(h: seq<SensorSample>) {
    && FaultRules.FourAbove(Readings(h, Voltage), 30000) && FaultRules.FourBelow(Readings(h, Voltage), 35000)
    && FaultRules.FourAbove(Readings(h, Temperature), -15000) && FaultRules.FourBelow(Readings(h, Temperature), 55000)
    && (var s := Readings(h, Current); |s| >= 106 && forall i :: |s| - 106 <= i < |s| ==> -90_000 < s[i] < 90_000)
  }

  /** Without a faulty sensor, the battery charges or discharges as the charger says if no reading ever went beyond a
      limit, or if the last ones clear every fault, whatever came before. */
  lemma GoodReadingsOperate(acq: AcquisitionThreadCore, core: ProcessingThreadCore)
    requires Linked(acq, core) && !core.faultStatus.sensorFault
    requires WithinLimits(Arrived(acq)) || Recovering(Arrived(acq))
    ensures core.faultStatus == NO_FAULTS && core.fsm.mode == Operating(ChargerIn(core.log))
  {
    hide Samples, Readings, Arrived, LastReading, LastStored;
    DetectorsSeeArrived(acq, core, Voltage);
    DetectorsSeeArrived(acq, core, Current);
    DetectorsSeeArrived(acq, core, Temperature);
    CoreFollows(core);
    hide ProcessingThreadCore.Valid, AcquisitionThreadCore.Valid, GuardOf, FaultRules.FourAbove, FaultRules.FourBelow;
    assert SensorsWork(core.log) by {
      SensorFaultIff(core.log);
      assert forall ch: Channel :: Broken(core.log, ch) ==> Invalid(LastReading(core.log, ch));
    }
    if WithinLimits(Arrived(acq)) {
      NoFalseAlarm(core.log);
    } else {
      BackToOperation(core.log);
    }
  }

  /** Four readings in a row beyond a limit of temperature, or below the lower one of voltage, secure the battery; below
      that of voltage it may still be charged. */
  lemma OtherReadingsSecure(acq: AcquisitionThreadCore, core: ProcessingThreadCore)
    requires Linked(acq, core)
    ensures FaultRules.FourAbove(Readings(Arrived(acq), Temperature), 60000) ==> core.fsm.mode == Secure
    ensures FaultRules.FourBelow(Readings(Arrived(acq), Temperature), -20000) ==> core.fsm.mode == Secure
    ensures FaultRules.FourBelow(Readings(Arrived(acq), Voltage), 29000) ==>
              core.fsm.mode == Secure || (core.fsm.mode == Charge && ChargerIn(core.log))
  {
    hide Samples, Readings, Arrived;
    DetectorsSeeArrived(acq, core, Voltage);
    DetectorsSeeArrived(acq, core, Temperature);
    CoreFollows(core);
    hide ProcessingThreadCore.Valid, AcquisitionThreadCore.Valid, GuardOf, FaultRules.FourAbove, FaultRules.FourBelow;
    OtherLimitsSecure(core.log);
  }
}
