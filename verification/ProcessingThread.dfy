/** The processing thread's object: filters, latches, stress counter and state machine, step by step. */
module ProcessingThread {
  import opened Bytes
  import opened RawInputs
  import opened Sequences
  import opened MedianFilter
  import opened FaultRules
  import opened BmsFsm
  import opened Processing
  import opened DropOldestQueue

  const SAMPLE_PERIOD_MS := 10
  const RECOVERY_DELAY_MS := 1000

  /** The stress counter, recovery timer and fault flag that the samples s amount to. */
  ghost predicate Tracks(s: seq<int>, stress: int, elapsed: int, active: bool) {
    match PhaseOf(s)
    case Armed(r) => !active && stress == Stress(s[r..]) && elapsed == 0
    case Tripped(t) => active && stress == STRESS_SCALE && elapsed == SAMPLE_PERIOD_MS * TrailingLow(s[t..])
  }

  lemma ArmedStep(s: seq<int>, x: int, stress: int, elapsed: int)
    requires Tracks(s, stress, elapsed, false)
    ensures 0 <= stress < STRESS_SCALE && elapsed == 0
    ensures if stress + Increment(x) >= STRESS_SCALE then Tracks(s + [x], STRESS_SCALE, 0, true)
            else Tracks(s + [x], stress + Increment(x), 0, false)
  {
    hide Stress, TrailingLow, Increment, NextPhase, PhaseOf;
    var p := PhaseOf(s);
    PhaseOnce(s, x);
    NextPhaseSnoc(s, x, p, s[p.since..]);
    SumsSnoc(s[p.since..], x);
    assert (s + [x])[|s| + 1..] == [];
    NoSamples();
  }

  lemma TrippedStep(s: seq<int>, x: int, stress: int, elapsed: int)
    requires Tracks(s, stress, elapsed, true)
    ensures stress == STRESS_SCALE && 0 <= elapsed < RECOVERY_DELAY_MS
    ensures if Abs(x) >= RECOVERY_THRESHOLD then Tracks(s + [x], stress, 0, true)
            else if elapsed + SAMPLE_PERIOD_MS >= RECOVERY_DELAY_MS then Tracks(s + [x], 0, 0, false)
            else Tracks(s + [x], stress, elapsed + SAMPLE_PERIOD_MS, true)
  {
    hide Stress, TrailingLow, Increment, NextPhase, PhaseOf, Abs;
    var p := PhaseOf(s);
    PhaseOnce(s, x);
    NextPhaseSnoc(s, x, p, s[p.since..]);
    SumsSnoc(s[p.since..], x);
    assert (s + [x])[|s| + 1..] == [];
    NoSamples();
  }

  /** A channel with two opposite latches, and the current channel with its stress counter and recovery timer. */
  datatype Latches = Latches(sensorFault: bool, over: bool, under: bool)

  datatype CurrentWatch = CurrentWatch(sensorFault: bool, stress: u32, elapsed: u32, fault: bool)

  ghost predicate LatchesHold(log: seq<Input>, ch: Channel, high: Band, low: Band, m: Latches) {
    m == Latches(Broken(log, ch), Limit(log, ch, high), Limit(log, ch, low))
  }

  ghost predicate StressHolds(log: seq<Input>, m: CurrentWatch) {
    m.sensorFault == Broken(log, Current) && Tracks(Currents(log), m.stress, m.elapsed, m.fault)
  }

  function Faults(v: Latches, c: CurrentWatch, t: Latches): FaultStatus {
    FaultStatus(v.sensorFault || c.sensorFault || t.sensorFault, v.over, v.under, c.fault, t.over, t.under)
  }

  /** The detectors' state is that of the history. */
  ghost predicate FlagsHold(log: seq<Input>, v: Latches, c: CurrentWatch, t: Latches) {
    LatchesHold(log, Voltage, OVERVOLTAGE, UNDERVOLTAGE, v) && StressHolds(log, c)
    && LatchesHold(log, Temperature, OVERTEMPERATURE, UNDERTEMPERATURE, t)
  }

  lemma FlagsAreFaults(log: seq<Input>, v: Latches, c: CurrentWatch, t: Latches)
    requires FlagsHold(log, v, c, t)
    ensures Faults(v, c, t) == FaultsOf(log)
  {
    hide Limit, Broken, Currents;
  }

  /** What the message says about each channel, with the filtered value of a valid new reading. */
  ghost predicate Carries(p: ProcessedInputs, log: seq<Input>, x: Input) {
    && p.voltageNew == ReadingOf(x, Voltage).Reading?
    && p.currentNew == ReadingOf(x, Current).Reading?
    && p.temperatureNew == ReadingOf(x, Temperature).Reading?
    && p.(voltageNew := false, currentNew := false, temperatureNew := false) == ProcessedOf(log + [x])
  }

  lemma AllCarried(p: ProcessedInputs, log: seq<Input>, raw: RawInputs)
    requires p.voltageNew == raw.voltageNew && p.currentNew == raw.currentNew && p.temperatureNew == raw.temperatureNew
    requires var after := log + [Message(raw)];
      && p.voltage == Shown(Samples(after, Voltage)) && p.voltageValid == Working(after, Voltage)
      && p.current == Shown(Samples(after, Current)) && p.currentValid == Working(after, Current)
      && p.temperature == Shown(Samples(after, Temperature)) && p.temperatureValid == Working(after, Temperature)
    ensures Carries(p, log, Message(raw))
  {
    hide Shown, Samples, Working;
  }

  class ProcessingThreadCore {
    const voltageFilter: Filter
    const currentFilter: Filter
    const temperatureFilter: Filter
    const fsm: BmsFsmContext
    var processed: ProcessedInputs
    var faultStatus: FaultStatus
    var voltage: Latches
    var current: CurrentWatch
    var temperature: Latches
    ghost var log: seq<Input>

    ghost function Parts(): set<object> {
      {this, voltageFilter, currentFilter, temperatureFilter, fsm,
       voltageFilter.buffer, currentFilter.buffer, temperatureFilter.buffer}
    }

    ghost predicate FiltersHold(log: seq<Input>)
      reads voltageFilter, currentFilter, temperatureFilter
      reads voltageFilter.buffer, currentFilter.buffer, temperatureFilter.buffer
    {
      && voltageFilter != currentFilter && voltageFilter != temperatureFilter && currentFilter != temperatureFilter
      && voltageFilter.buffer != currentFilter.buffer && voltageFilter.buffer != temperatureFilter.buffer
      && currentFilter.buffer != temperatureFilter.buffer
      && Carried(voltageFilter, log, Voltage) && Carried(currentFilter, log, Current)
        && Carried(temperatureFilter, log, Temperature)
    }

    /** Every field is what the whole history of messages and charger changes amounts to. */
    ghost predicate Valid()
      reads Parts()
    {
      FiltersHold(log) && LockedHolds()
    }

    /** The part the mutex guards. */
    ghost predicate LockedHolds()
      reads this, fsm
    {
      && FlagsHold(log, voltage, current, temperature)
      && faultStatus == FaultsOf(log)
      && processed == ProcessedOf(log)
      && fsm.View() == GuardOf(log).context
    }

    constructor ()
      ensures Valid() && log == [] && fresh(Parts())
    {
      hide FaultsOf, GuardOf, FlagsHold, ProcessedOf, Samples;
      voltageFilter := new Filter(WINDOW);
      currentFilter := new Filter(WINDOW);
      temperatureFilter := new Filter(WINDOW);
      fsm := new BmsFsmContext();
      processed := ProcessedInputs(0, 0, 0, false, false, false, false, false, false);
      faultStatus := NO_FAULTS;
      voltage, temperature := Latches(false, false, false), Latches(false, false, false);
      current := CurrentWatch(false, 0, 0, false);
      log := [];
      new;
      NothingYet();
    }

    method DetectOvervoltage(mv: int) returns (r: bool)
      modifies `voltage
      ensures r == (OVERVOLTAGE.Trips(mv) || (old(voltage).over && !OVERVOLTAGE.Recovers(mv)))
      ensures voltage == old(voltage).(over := r)
    {
      if !voltage.over {
        voltage := voltage.(over := mv > OVERVOLTAGE.limit);
      } else if mv < OVERVOLTAGE.recovery {
        voltage := voltage.(over := false);
      }
      r := voltage.over;
    }

    method DetectUndervoltage(mv: int) returns (r: bool)
      modifies `voltage
      ensures r == (UNDERVOLTAGE.Trips(mv) || (old(voltage).under && !UNDERVOLTAGE.Recovers(mv)))
      ensures voltage == old(voltage).(under := r)
    {
      if !voltage.under {
        voltage := voltage.(under := mv < UNDERVOLTAGE.limit);
      } else if mv > UNDERVOLTAGE.recovery {
        voltage := voltage.(under := false);
      }
      r := voltage.under;
    }

    method DetectOvertemperature(mc: int) returns (r: bool)
      modifies `temperature
      ensures r == (OVERTEMPERATURE.Trips(mc) || (old(temperature).over && !OVERTEMPERATURE.Recovers(mc)))
      ensures temperature == old(temperature).(over := r)
    {
      if !temperature.over {
        temperature := temperature.(over := mc > OVERTEMPERATURE.limit);
      } else if mc < OVERTEMPERATURE.recovery {
        temperature := temperature.(over := false);
      }
      r := temperature.over;
    }

    method DetectUndertemperature(mc: int) returns (r: bool)
      modifies `temperature
      ensures r == (UNDERTEMPERATURE.Trips(mc) || (old(temperature).under && !UNDERTEMPERATURE.Recovers(mc)))
      ensures temperature == old(temperature).(under := r)
    {
      if !temperature.under {
        temperature := temperature.(under := mc < UNDERTEMPERATURE.limit);
      } else if mc > UNDERTEMPERATURE.recovery {
        temperature := temperature.(under := false);
      }
      r := temperature.under;
    }

    /** The stress counter and recovery timer carry out the rule on the whole history of filtered currents. */
    method DetectCurrentFault(ma: int, ghost s: seq<int>) returns (r: bool)
      requires Tracks(s, current.stress, current.elapsed, current.fault)
      modifies `current
      ensures r == current.fault && current.sensorFault == old(current).sensorFault
      ensures Tracks(s + [ma], current.stress, current.elapsed, current.fault)
    {
      hide Tracks, Increment;
      var increment := Increment(ma);
      if !current.fault {
        ArmedStep(s, ma, current.stress, current.elapsed);
        if current.stress > STRESS_SCALE - increment {
          current := current.(stress := STRESS_SCALE);
        } else {
          current := current.(stress := current.stress + increment);
        }
        if current.stress >= STRESS_SCALE {
          current := current.(fault := true, elapsed := 0);
        }
      } else {
        TrippedStep(s, ma, current.stress, current.elapsed);
        LowCurrent(ma);
        if increment > 0 {
          current := current.(elapsed := 0, stress := STRESS_SCALE);
        } else if Abs(ma) < RECOVERY_THRESHOLD {
          if current.elapsed + SAMPLE_PERIOD_MS >= RECOVERY_DELAY_MS {
            current := current.(elapsed := RECOVERY_DELAY_MS);
          } else {
            current := current.(elapsed := current.elapsed + SAMPLE_PERIOD_MS);
          }
        } else {
          current := current.(elapsed := 0);
        }
        if current.elapsed >= RECOVERY_DELAY_MS {
          current := current.(stress := 0, fault := false, elapsed := 0);
        }
      }
      r := current.fault;
    }

    method EvaluateVoltage(p: ProcessedInputs, ghost h: seq<Input>, ghost x: Input)
      requires Carries(p, h, x) && LatchesHold(h, Voltage, OVERVOLTAGE, UNDERVOLTAGE, voltage)
      requires faultStatus.overvoltage == voltage.over && faultStatus.undervoltage == voltage.under
      modifies `voltage, `faultStatus
      ensures LatchesHold(h + [x], Voltage, OVERVOLTAGE, UNDERVOLTAGE, voltage)
      ensures faultStatus == old(faultStatus).(overvoltage := voltage.over, undervoltage := voltage.under)
    {
      hide Limit, Shown, Samples, LastReading, Band.Trips, Band.Recovers;
      HistorySnoc(h, x, Voltage);
      LimitSnoc(h, x, Voltage, OVERVOLTAGE, Shown(Samples(h + [x], Voltage)));
      LimitSnoc(h, x, Voltage, UNDERVOLTAGE, Shown(Samples(h + [x], Voltage)));
      if p.voltageNew {
        voltage := voltage.(sensorFault := !p.voltageValid);
        if p.voltageValid {
          var over := DetectOvervoltage(p.voltage);
          faultStatus := faultStatus.(overvoltage := over);
          var under := DetectUndervoltage(p.voltage);
          faultStatus := faultStatus.(undervoltage := under);
        }
      }
    }

    method EvaluateCurrent(p: ProcessedInputs, ghost h: seq<Input>, ghost x: Input)
      requires Carries(p, h, x) && StressHolds(h, current) && faultStatus.overcurrent == current.fault
      modifies `current, `faultStatus
      ensures StressHolds(h + [x], current) && faultStatus == old(faultStatus).(overcurrent := current.fault)
    {
      hide Currents, Shown, Samples, LastReading, Tracks;
      HistorySnoc(h, x, Current);
      CurrentsSnoc(h, x);
      assert Currents(h) + [] == Currents(h);
      if p.currentNew {
        current := current.(sensorFault := !p.currentValid);
        if p.currentValid {
          var over := DetectCurrentFault(p.current, Currents(h));
          faultStatus := faultStatus.(overcurrent := over);
        }
      }
    }

    method EvaluateTemperature(p: ProcessedInputs, ghost h: seq<Input>, ghost x: Input)
      requires Carries(p, h, x) && LatchesHold(h, Temperature, OVERTEMPERATURE, UNDERTEMPERATURE, temperature)
      requires faultStatus.overtemperature == temperature.over && faultStatus.undertemperature == temperature.under
      modifies `temperature, `faultStatus
      ensures LatchesHold(h + [x], Temperature, OVERTEMPERATURE, UNDERTEMPERATURE, temperature)
      ensures faultStatus == old(faultStatus).(overtemperature := temperature.over,
          undertemperature := temperature.under)
    {
      hide Limit, Shown, Samples, LastReading, Band.Trips, Band.Recovers;
      HistorySnoc(h, x, Temperature);
      LimitSnoc(h, x, Temperature, OVERTEMPERATURE, Shown(Samples(h + [x], Temperature)));
      LimitSnoc(h, x, Temperature, UNDERTEMPERATURE, Shown(Samples(h + [x], Temperature)));
      if p.temperatureNew {
        temperature := temperature.(sensorFault := !p.temperatureValid);
        if p.temperatureValid {
          var over := DetectOvertemperature(p.temperature);
          faultStatus := faultStatus.(overtemperature := over);
          var under := DetectUndertemperature(p.temperature);
          faultStatus := faultStatus.(undertemperature := under);
        }
      }
    }

    method EvaluateChannels(p: ProcessedInputs, ghost h: seq<Input>, ghost x: Input)
      requires Carries(p, h, x) && FlagsHold(h, voltage, current, temperature)
      requires faultStatus == Faults(voltage, current, temperature)
      modifies `voltage, `current, `temperature, `faultStatus
      ensures FlagsHold(h + [x], voltage, current, temperature) && faultStatus == Faults(voltage, current, temperature)
    {
      hide LatchesHold, StressHolds, Carries;
      EvaluateVoltage(p, h, x);
      EvaluateCurrent(p, h, x);
      EvaluateTemperature(p, h, x);
      faultStatus := faultStatus.(sensorFault := voltage.sensorFault || current.sensorFault || temperature.sensorFault);
    }

    method EvaluateFaults(p: ProcessedInputs, ghost raw: RawInputs)
      requires Carries(p, log, Message(raw)) && FlagsHold(log, voltage, current, temperature)
      requires faultStatus == Faults(voltage, current, temperature) && fsm.View() == GuardOf(log).context
      modifies `voltage, `current, `temperature, `faultStatus, fsm
      ensures FlagsHold(log + [Message(raw)], voltage, current, temperature)
          && faultStatus == FaultsOf(log + [Message(raw)])
      ensures fsm.View() == GuardOf(log + [Message(raw)]).context
    {
      hide FlagsHold, Faults, FaultsOf, Carries, Dispatch, GuardOf;
      EvaluateChannels(p, log, Message(raw));
      FlagsAreFaults(log + [Message(raw)], voltage, current, temperature);
      MessageStep(log, raw);
      fsm.UpdateFaultStatus(faultStatus);
    }

    /** Runs the valid new samples through the filters. */
    method FilterSample(raw: RawInputs) returns (p: ProcessedInputs)
      requires FiltersHold(log) && processed == ProcessedOf(log)
      modifies voltageFilter, currentFilter, temperatureFilter
      modifies voltageFilter.buffer, currentFilter.buffer, temperatureFilter.buffer
      ensures FiltersHold(log + [Message(raw)]) && Carries(p, log, Message(raw))
    {
      hide Carried, Carries, Shown, Samples, Working;
      var v, vOk := FilterChannel(voltageFilter, raw.voltageNew, raw.voltage, processed.voltage,
          processed.voltageValid, log, raw, Voltage);
      var c, cOk := FilterChannel(currentFilter, raw.currentNew, raw.current, processed.current,
          processed.currentValid, log, raw, Current);
      var t, tOk := FilterChannel(temperatureFilter, raw.temperatureNew, raw.temperature, processed.temperature,
                                  processed.temperatureValid, log, raw, Temperature);
      p := ProcessedInputs(v, c, t, vOk, cOk, tOk, raw.voltageNew, raw.currentNew, raw.temperatureNew);
      AllCarried(p, log, raw);
    }

    /** The second locked section of a message. */
    method Conclude(p: ProcessedInputs, ghost raw: RawInputs)
      requires LockedHolds() && Carries(p, log, Message(raw))
      modifies this, fsm
      ensures LockedHolds() && log == old(log) + [Message(raw)]
    {
      hide FlagsHold, FaultsOf, ProcessedOf, GuardOf;
      FlagsAreFaults(log, voltage, current, temperature);
      processed := p;
      EvaluateFaults(p, raw);
      processed := processed.(voltageNew := false, currentNew := false, temperatureNew := false);
      log := log + [Message(raw)];
    }

    /** One message: filter the valid new samples, update the detectors and let the state machine follow. The charger
        may be switched between the two locked sections. */
    method ProcessSample(raw: RawInputs, switches: seq<bool>)
      requires Valid()
      modifies Parts()
      ensures Valid() && log == old(log) + Changes(switches) + [Message(raw)]
    {
      hide LockedHolds, Carried, Carries, SameReadings;
      ProcessedLocked();
      var p := FilterSample(raw);
      ghost var before := log;
      SwitchChargers(switches);
      ChangesKeepReadings(before, switches);
      SnocKeepsReadings(before, log, Message(raw));
      CarriesOn(p, before, log, raw);
      FiltersFollow(before + [Message(raw)], log + [Message(raw)]);
      Conclude(p, raw);
    }

    lemma ProcessedLocked()
      requires LockedHolds()
      ensures processed == ProcessedOf(log)
    {}

    /** The filters look at histories of readings only. */
    lemma FiltersFollow(h: seq<Input>, g: seq<Input>)
      requires FiltersHold(h) && SameReadings(h, g)
      ensures FiltersHold(g)
    {}

    method SwitchChargers(switches: seq<bool>)
      requires LockedHolds()
      modifies `log, fsm
      ensures LockedHolds() && log == old(log) + Changes(switches)
    {
      hide LockedHolds;
      assert Changes(switches[..0]) == [];
      for i := 0 to |switches|
        invariant LockedHolds() && log == old(log) + Changes(switches[..i])
      {
        SetChargerConnected(switches[i]);
        assert Changes(switches[..i + 1]) == Changes(switches[..i]) + [ChargerChange(switches[i])];
      }
      assert switches[..|switches|] == switches;
    }

    method SwitchCharger(connected: bool)
      requires fsm.View() == GuardOf(log).context && faultStatus == FaultsOf(log)
      modifies fsm
      ensures fsm.View() == GuardOf(log + [ChargerChange(connected)]).context
    {
      hide FaultsOf, GuardOf, Handle, Dispatch;
      if connected {
        fsm.HandleEvent(ChargerConnected);
      } else {
        fsm.HandleEvent(ChargerDisconnected);
      }
      fsm.UpdateFaultStatus(faultStatus);
      ChargerStep(log, connected);
    }

    method SetChargerConnected(connected: bool)
      requires LockedHolds()
      modifies `log, fsm
      ensures LockedHolds() && log == old(log) + [ChargerChange(connected)]
    {
      hide FaultsOf, ProcessedOf, Samples, GuardOf, LatchesHold, StressHolds;
      SwitchCharger(connected);
      ChargerKeepsFaults(log, connected);
      ChargerKeepsFlags(log, connected);
      log := log + [ChargerChange(connected)];
    }
  }

  /** The charger is switched some times. */
  function Changes(switches: seq<bool>): seq<Input> {
    seq(|switches|, i requires 0 <= i < |switches| => ChargerChange(switches[i]))
  }

  /** Two histories with the same readings of every channel. */
  ghost predicate SameReadings(h: seq<Input>, g: seq<Input>) {
    forall ch :: Samples(h, ch) == Samples(g, ch) && LastReading(h, ch) == LastReading(g, ch)
  }

  lemma {:induction false} ChangesKeepReadings(log: seq<Input>, switches: seq<bool>)
    ensures SameReadings(log, log + Changes(switches)) && Messages(log + Changes(switches)) == Messages(log)
  {
    hide SameReadings, Changes, Messages;
    if switches == [] {
      NoChanges(log);
    } else {
      var n := |switches| - 1;
      var h := log + Changes(switches[..n]);
      ChangesKeepReadings(log, switches[..n]);
      ChangesSnoc(switches);
      assert log + Changes(switches) == h + [ChargerChange(switches[n])];
      ChangeKeepsReadings(log, h, switches[n]);
    }
  }

  lemma NoChanges(log: seq<Input>)
    ensures log + Changes([]) == log && SameReadings(log, log)
  {}

  lemma ChangesSnoc(switches: seq<bool>)
    requires switches != []
    ensures var n := |switches| - 1; Changes(switches) == Changes(switches[..n]) + [ChargerChange(switches[n])]
  {}

  lemma ChangeKeepsReadings(log: seq<Input>, h: seq<Input>, on: bool)
    requires SameReadings(log, h)
    ensures SameReadings(log, h + [ChargerChange(on)]) && Messages(h + [ChargerChange(on)]) == Messages(h)
  {
    hide Samples, LastReading, FaultsOf, ProcessedOf;
    ChargerKeepsFaults(h, on);
    assert (h + [ChargerChange(on)])[..|h|] == h;
  }

  lemma SnocKeepsReadings(h: seq<Input>, g: seq<Input>, x: Input)
    requires SameReadings(h, g)
    ensures SameReadings(h + [x], g + [x])
  {
    hide Samples, LastReading;
    forall ch ensures Samples(h + [x], ch) == Samples(g + [x], ch)
        && LastReading(h + [x], ch) == LastReading(g + [x], ch) {
      HistorySnoc(h, x, ch);
      HistorySnoc(g, x, ch);
    }
  }

  lemma CarriesOn(p: ProcessedInputs, h: seq<Input>, g: seq<Input>, raw: RawInputs)
    requires Carries(p, h, Message(raw)) && SameReadings(h + [Message(raw)], g + [Message(raw)])
    ensures Carries(p, g, Message(raw))
  {
    hide Samples, LastReading, Median, Last;
  }

  lemma MessagesSnoc(log: seq<Input>, raw: RawInputs)
    ensures Messages(log + [Message(raw)]) == Messages(log) + [raw]
  {
    assert (log + [Message(raw)])[..|log|] == log;
  }

  /** What happens while a message is processed: messages posted and charger switched before it is filtered, and charger
      switched between its two locked sections. */
  datatype Between = Between(posts: seq<RawInputs>, before: seq<bool>, between: seq<bool>)

  method PostAll(queue: Queue<RawInputs>, posts: seq<RawInputs>)
    requires queue.Valid()
    modifies queue, queue.items
    ensures queue.Valid() && queue.trace.popped == old(queue.trace).popped
    ensures queue.trace.pushed == old(queue.trace).pushed + posts && (posts == [] ==> queue.trace == old(queue.trace))
  {
    for i := 0 to |posts|
      invariant queue.Valid() && queue.trace.popped == old(queue.trace).popped
      invariant queue.trace.pushed == old(queue.trace).pushed + posts[..i]
          && (i == 0 ==> queue.trace == old(queue.trace))
    {
      queue.Push(posts[i]);
    }
  }

  /** Processes one popped message, with what happens meanwhile. */
  method Serve(core: ProcessingThreadCore, queue: Queue<RawInputs>, raw: RawInputs, m: Between)
    requires core.Valid() && queue.Valid() && queue.trace.popped == Messages(core.log) + [raw]
    modifies core.Parts(), queue, queue.items
    ensures core.Valid() && queue.Valid() && Messages(core.log) == queue.trace.popped == old(queue.trace).popped
    ensures queue.trace.pushed == old(queue.trace).pushed + m.posts
        && (m.posts == [] ==> queue.trace == old(queue.trace))
  {
    hide ProcessingThreadCore.LockedHolds, ProcessingThreadCore.FiltersHold, Messages, Changes, SameReadings;
    PostAll(queue, m.posts);
    ghost var log := core.log;
    core.SwitchChargers(m.before);
    ChangesKeepReadings(log, m.before);
    core.FiltersFollow(log, core.log);
    ghost var after := core.log;
    core.ProcessSample(raw, m.between);
    ChangesKeepReadings(after, m.between);
    MessagesSnoc(after + Changes(m.between), raw);
  }

  /** The thread's inner loop: every message popped is processed, once and in order, while messages are posted and the
      charger is switched, and the loop ends only when the queue is empty. */
  method Drain(core: ProcessingThreadCore, queue: Queue<RawInputs>, between: seq<Between>)
    requires core.Valid() && queue.Valid() && Messages(core.log) == queue.trace.popped
    modifies core.Parts(), queue, queue.items
    ensures core.Valid() && queue.Valid() && Messages(core.log) == queue.trace.popped
    ensures Queued(queue.trace) == [] && old(queue.trace).pushed <= queue.trace.pushed
  {
    hide ProcessingThreadCore.Valid, Messages, AfterPop;
    var raw := NO_INPUTS;
    var ok := true;
    var k := 0;
    while ok
      invariant core.Valid() && queue.Valid() && Messages(core.log) == queue.trace.popped
      invariant k <= |between| && old(queue.trace).pushed <= queue.trace.pushed
      invariant !ok ==> Queued(queue.trace) == []
      decreases |between| - k, ok, queue.count
    {
      PopTakesFirst(queue.trace);
      AfterPopLengths(queue.trace);
      ok, raw := queue.Pop(raw);
      if ok {
        var m := Between([], [], []);
        if k < |between| {
          m := between[k];
          k := k + 1;
        }
        Serve(core, queue, raw, m);
      }
    }
  }

  /** The filter has taken the valid samples of its channel. */
  ghost predicate Carried(f: Filter, log: seq<Input>, ch: Channel)
    reads f, f.buffer
  {
    f.Valid() && f.window == WINDOW && f.history == Samples(log, ch)
  }

  /** One channel of a message: a valid new sample goes through the filter, and its validity is noted. */
  method FilterChannel(f: Filter, isNew: bool, sample: Timestamped, shown: int, valid: bool,
                       ghost log: seq<Input>, ghost raw: RawInputs, ghost ch: Channel)
      returns (value: int, ok: bool)
    requires Carried(f, log, ch) && isNew == raw.IsNew(ch) && sample == raw.Of(ch)
    requires shown == Shown(Samples(log, ch)) && valid == Working(log, ch)
    modifies f, f.buffer
    ensures Carried(f, log + [Message(raw)], ch)
    ensures value == Shown(Samples(log + [Message(raw)], ch)) && ok == Working(log + [Message(raw)], ch)
  {
    hide Samples, LastReading, Median, Last;
    HistorySnoc(log, Message(raw), ch);
    value, ok := shown, valid;
    if isNew {
      if sample.valid {
        value := f.Apply(sample.value);
      }
      ok := sample.valid;
    }
  }

  lemma ChargerKeepsFlags(log: seq<Input>, on: bool)
    ensures var after := log + [ChargerChange(on)];
      && (forall ch, high, low, m :: LatchesHold(after, ch, high, low, m) == LatchesHold(log, ch, high, low, m))
      && (forall m :: StressHolds(after, m) == StressHolds(log, m))
  {
    hide Latched, Filtered, Samples, LastReading, Tracks, FaultsOf, ProcessedOf;
    ChargerKeepsFaults(log, on);
  }

  lemma LowCurrent(current: int)
    ensures Abs(current) < RECOVERY_THRESHOLD ==> Increment(current) == 0
  {}

  lemma NothingYet()
    ensures FaultsOf([]) == NO_FAULTS && GuardOf([]).context == INITIAL
    ensures FlagsHold([], Latches(false, false, false), CurrentWatch(false, 0, 0, false), Latches(false, false, false))
    ensures ProcessedOf([]) == ProcessedInputs(0, 0, 0, false, false, false, false, false, false)
    ensures forall ch :: Samples([], ch) == []
  {
    StartsSettled();
    assert Currents([]) == [];
    assert Filtered([]) == [] && forall b :: !Latched([], b);
  }
}
