/** The acquisition thread: one message per sensor sample, and what survives the two queues on the way to the
    processing thread. */
module Acquisition {
  import opened Bytes
  import opened RawInputs
  import opened DropOldestQueue
  import opened Processing

  datatype SensorSample = SensorSample(channel: Channel, value: i32, tick: u32, valid: bool)

  /** A sample as the messages carry it; a negative voltage is stored as an invalid zero. */
  function Stored(s: SensorSample): Timestamped {
    if s.channel.Voltage? then Timestamped(if s.value < 0 then 0 else s.value, s.tick, s.valid && s.value >= 0)
    else Timestamped(s.value, s.tick, s.valid)
  }

  /** The latest sample of a channel. */
  function Latest(h: seq<SensorSample>, ch: Channel): Timestamped {
    if h == [] then UNSET
    else if h[|h| - 1].channel == ch then Stored(h[|h| - 1])
    else Latest(h[..|h| - 1], ch)
  }

  /** The message after the samples h: the latest sample of every channel, of which only the last one's channel is
      new. */
  function MessageFor(h: seq<SensorSample>): RawInputs
    requires h != []
  {
    var ch := h[|h| - 1].channel;
    RawInputs(Latest(h, Voltage), Latest(h, Current), Latest(h, Temperature), ch.Voltage?, ch.Current?, ch.Temperature?)
  }

  function Quiet(h: seq<SensorSample>): RawInputs {
    RawInputs(Latest(h, Voltage), Latest(h, Current), Latest(h, Temperature), false, false, false)
  }

  function Published(h: seq<SensorSample>): (messages: seq<RawInputs>)
    ensures |messages| == |h|
  {
    if h == [] then [] else Published(h[..|h| - 1]) + [MessageFor(h)]
  }

  lemma {:induction false} PublishedAt(h: seq<SensorSample>, i: nat)
    requires i < |h|
    ensures Published(h)[i] == MessageFor(h[..i + 1])
  {
    var n := |h| - 1;
    if i < n {
      PublishedAt(h[..n], i);
      assert h[..n][..i + 1] == h[..i + 1];
    } else {
      assert h[..i + 1] == h;
    }
  }

  /** Message i has exactly the channel of sample i marked as new, and carries that sample in it: valid if the sensor
      says so, unless it is a negative voltage, which is an invalid zero. */
  lemma OneNewChannel(h: seq<SensorSample>, i: nat, ch: Channel)
    requires i < |h|
    ensures var m := Published(h)[i];
      && m.IsNew(ch) == (h[i].channel == ch) && (m.IsNew(ch) ==> m.Of(ch) == Stored(h[i]))
      && (m.IsNew(ch) ==>
            var negative := ch == Voltage && h[i].value < 0;
            m.Of(ch) == Timestamped(if negative then 0 else h[i].value, h[i].tick, h[i].valid && !negative))
  {
    PublishedAt(h, i);
    assert h[..i + 1][i] == h[i];
  }

  // ---- from the sensors to the detectors ----

  /** The valid values among the samples of a channel. */
  function Readings(h: seq<SensorSample>, ch: Channel): seq<int> {
    if h == [] then []
    else
      var s := h[|h| - 1];
      Readings(h[..|h| - 1], ch) + if s.channel == ch && Stored(s).valid then [Stored(s).value] else []
  }

  /** The last sample of a channel as it was stored. */
  function LastStored(h: seq<SensorSample>, ch: Channel): Reading {
    if h == [] then NoReading
    else
      var s := h[|h| - 1];
      if s.channel == ch then Reading(Stored(s).valid, Stored(s).value) else LastStored(h[..|h| - 1], ch)
  }

  /** Sample i is the last one of its channel, and the sensor says it is not valid, or it is a negative voltage. */
  ghost predicate LastFaulty(h: seq<SensorSample>, i: nat)
    ensures LastFaulty(h, i) ==> i < |h|
  {
    && i < |h| && (forall j :: i < j < |h| ==> h[j].channel != h[i].channel)
    && (!h[i].valid || (h[i].channel == Voltage && h[i].value < 0))
  }

  /** The last sample of a channel is stored as invalid exactly if it is faulty. */
  lemma {:induction false} LastStoredIff(h: seq<SensorSample>, ch: Channel)
    ensures Invalid(LastStored(h, ch)) <==> exists i: nat :: LastFaulty(h, i) && h[i].channel == ch
  {
    hide LastFaulty;
    if h != [] {
      LastStoredIff(h[..|h| - 1], ch);
      FaultyNow(h);
      forall i: nat | i < |h| - 1
        ensures LastFaulty(h, i) <==> LastFaulty(h[..|h| - 1], i) && h[i].channel != h[|h| - 1].channel
      {
        FaultyBefore(h, i);
      }
    }
  }

  lemma FaultyNow(h: seq<SensorSample>)
    requires h != []
    ensures LastFaulty(h, |h| - 1) <==> !Stored(h[|h| - 1]).valid
  {}

  lemma FaultyBefore(h: seq<SensorSample>, i: nat)
    requires i < |h| - 1
    ensures LastFaulty(h, i) <==> LastFaulty(h[..|h| - 1], i) && h[i].channel != h[|h| - 1].channel
  {}

  lemma SomeFaultyIff(h: seq<SensorSample>)
    ensures (exists ch :: Invalid(LastStored(h, ch))) <==> exists i: nat :: LastFaulty(h, i)
  {
    hide LastFaulty, LastStored;
    if ch :| Invalid(LastStored(h, ch)) {
      LastStoredIff(h, ch);
    }
    if i: nat :| LastFaulty(h, i) {
      LastStoredIff(h, h[i].channel);
    }
  }

  function AsLog(messages: seq<RawInputs>): seq<Input> {
    seq(|messages|, i requires 0 <= i < |messages| => Message(messages[i]))
  }

  /** Charger changes between the messages do not matter to the readings. */
  lemma {:induction false} SamplesOfMessages(log: seq<Input>, ch: Channel)
    ensures Samples(log, ch) == Samples(AsLog(Messages(log)), ch)
    ensures LastReading(log, ch) == LastReading(AsLog(Messages(log)), ch)
  {
    if log == [] {
      assert AsLog([]) == [];
    } else {
      var n := |log| - 1;
      SamplesOfMessages(log[..n], ch);
      if log[n].Message? {
        assert AsLog(Messages(log)) == AsLog(Messages(log[..n])) + [log[n]];
        HistorySnoc(AsLog(Messages(log[..n])), log[n], ch);
      } else {
        assert Messages(log) == Messages(log[..n]);
      }
    }
  }

  /** Whatever messages the queue between the threads has dropped, the detectors see of every channel exactly the valid
      readings whose messages arrived, each once and in order. */
  lemma {:induction false} ReadingsArrive(h: seq<SensorSample>, served: seq<bool>, ch: Channel)
    requires |served| <= |h|
    ensures Samples(AsLog(Select(Published(h), served, true)), ch) == Readings(Select(h, served, true), ch)
    ensures LastReading(AsLog(Select(Published(h), served, true)), ch) == LastStored(Select(h, served, true), ch)
  {
    if served == [] {
      assert AsLog([]) == [];
    } else {
      var n := |served| - 1;
      ReadingsArrive(h, served[..n], ch);
      if served[n] {
        var u, v := Select(Published(h), served[..n], true), Select(h, served[..n], true);
        assert AsLog(u + [Published(h)[n]]) == AsLog(u) + [Message(Published(h)[n])];
        HistorySnoc(AsLog(u), Message(Published(h)[n]), ch);
        OneNewChannel(h, n, ch);
        assert (v + [h[n]])[..|v|] == v;
      } else {
        assert Select(Published(h), served, true) == Select(Published(h), served[..n], true);
        assert Select(h, served, true) == Select(h, served[..n], true);
      }
    }
  }

  // ---- the thread ----

  /** What the timers and the processing thread do between two locked sections. */
  datatype Meanwhile = Meanwhile(arrivals: seq<SensorSample>, taken: nat)

  class AcquisitionThreadCore {
    const sensorQueue: Queue<SensorSample>
    const sink: Queue<RawInputs>
    var rawInputs: RawInputs

    ghost function Parts(): set<object> {
      {this, sensorQueue, sink, sensorQueue.items, sink.items}
    }

    /** The samples that have been popped from the sensor queue. */
    ghost function Taken(): seq<SensorSample>
      reads sensorQueue
    {
      sensorQueue.trace.popped
    }

    ghost predicate QueuesValid()
      reads Parts()
    {
      sensorQueue.Valid() && sink.Valid()
    }

    ghost predicate Valid()
      reads Parts()
    {
      QueuesValid() && rawInputs == Quiet(Taken()) && sink.trace.pushed == Published(Taken())
    }

    constructor (sink: Queue<RawInputs>)
      requires sink.Valid() && sink.trace.pushed == []
      ensures Valid() && this.sink == sink && Taken() == []
      ensures fresh(this) && fresh(sensorQueue) && fresh(sensorQueue.items)
    {
      this.sink := sink;
      sensorQueue := new Queue(SensorSample(Voltage, 0, 0, false));
      rawInputs := NO_INPUTS;
    }

    method ApplySensorSample(sample: SensorSample, ghost h: seq<SensorSample>)
      requires rawInputs == Quiet(h)
      modifies `rawInputs
      ensures rawInputs == MessageFor(h + [sample])
    {
      assert (h + [sample])[..|h|] == h;
      match sample.channel
      case Voltage =>
        rawInputs := rawInputs.(
          voltage := Timestamped(if sample.value < 0 then 0 else sample.value, sample.tick,
                                 sample.valid && sample.value >= 0),
          voltageNew := true);
      case Current =>
        rawInputs := rawInputs.(current := Timestamped(sample.value, sample.tick, sample.valid), currentNew := true);
      case Temperature =>
        rawInputs := rawInputs.(
          temperature := Timestamped(sample.value, sample.tick, sample.valid),
          temperatureNew := true);
    }

    method PublishRawInputs(ghost h: seq<SensorSample>)
      requires QueuesValid() && h != [] && rawInputs == MessageFor(h)
      modifies `rawInputs, sink, sink.items
      ensures QueuesValid() && rawInputs == Quiet(h)
      ensures sink.trace == AfterPush(old(sink.trace), MessageFor(h))
    {
      var message := rawInputs;
      rawInputs := rawInputs.(voltageNew := false, currentNew := false, temperatureNew := false);
      sink.Push(message);
    }

    /** Samples arrive from the timers and the processing thread takes messages. */
    method Interfere(e: Meanwhile)
      requires QueuesValid()
      modifies sensorQueue, sensorQueue.items, sink
      ensures QueuesValid() && Taken() == old(Taken()) && sink.trace.pushed == old(sink.trace.pushed)
    {
      var i := 0;
      while i < |e.arrivals|
        invariant i <= |e.arrivals| && QueuesValid() && Taken() == old(Taken())
        invariant sink.trace.pushed == old(sink.trace.pushed)
      {
        sensorQueue.Push(e.arrivals[i]);
        i := i + 1;
      }
      i := 0;
      while i < e.taken
        invariant i <= e.taken && QueuesValid() && Taken() == old(Taken())
        invariant sink.trace.pushed == old(sink.trace.pushed)
      {
        var _, _ := sink.Pop(NO_INPUTS);
        i := i + 1;
      }
    }

    /** The inner loop: every sample popped gives one message, while samples and messages come and go in between.
        It ends only when the sensor queue is empty. */
    method Drain(meanwhile: seq<Meanwhile>)
      requires Valid()
      modifies this, sensorQueue, sensorQueue.items, sink, sink.items
      ensures Valid() && Queued(sensorQueue.trace) == []
      ensures old(Taken()) <= Taken()
    {
      var sample := SensorSample(Voltage, 0, 0, false);
      var ok := true;
      var k := 0;
      while ok
        invariant k <= |meanwhile| && Valid() && old(Taken()) <= Taken()
        invariant !ok ==> Queued(sensorQueue.trace) == []
        decreases |meanwhile| - k, ok, sensorQueue.count
      {
        ghost var before := Taken();
        ok, sample := sensorQueue.Pop(sample);
        if ok {
          if k < |meanwhile| {
            Interfere(meanwhile[k]);
            k := k + 1;
          }
          Step(sample, before);
        }
      }
    }

    /** Applies and publishes the sample that was just popped. */
    method Step(sample: SensorSample, ghost before: seq<SensorSample>)
      requires QueuesValid() && rawInputs == Quiet(before) && sink.trace.pushed == Published(before)
      requires Taken() == before + [sample]
      modifies `rawInputs, sink, sink.items
      ensures Valid() && sensorQueue.count == old(sensorQueue.count) && sink.trace.popped == old(sink.trace.popped)
    {
      ApplySensorSample(sample, before);
      PublishRawInputs(before + [sample]);
      assert (before + [sample])[..|before|] == before;
    }
  }
}
