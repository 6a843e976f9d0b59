/** The protection rules over whole histories of filtered samples. */
module FaultRules {
  import opened Arithmetic
  import opened MedianFilter
  import opened Sequences

  const WINDOW := 7

  // ---- filtered histories ----

  /** What the median filter has put out for each sample of a channel. */
  function Filtered(samples: seq<int>): (f: seq<int>)
    ensures |f| == |samples|
  {
    if samples == [] then [] else Filtered(samples[..|samples| - 1]) + [Median(Last(samples, WINDOW))]
  }

  lemma FilteredSnoc(samples: seq<int>, x: int)
    ensures Filtered(samples + [x]) == Filtered(samples) + [Median(Last(samples + [x], WINDOW))]
  {
    assert (samples + [x])[..|samples|] == samples;
  }

  // ---- latching thresholds ----

  datatype Band = Over(limit: int, recovery: int) | Under(limit: int, recovery: int) {
    predicate Trips(v: int) {
      if Over? then v > limit else v < limit
    }

    predicate Recovers(v: int) {
      if Over? then v < recovery else v > recovery
    }

    predicate Proper() {
      if Over? then recovery <= limit else limit <= recovery
    }
  }

  const OVERVOLTAGE := Over(40000, 35000)
  const UNDERVOLTAGE := Under(29000, 30000)
  const OVERTEMPERATURE := Over(60000, 55000)
  const UNDERTEMPERATURE := Under(-20000, -15000)

  /** The most recent sample outside the band was on the trip side. */
  ghost predicate Latched(s: seq<int>, b: Band) {
    exists i :: 0 <= i < |s| && b.Trips(s[i]) && forall j :: i < j < |s| ==> !b.Recovers(s[j])
  }

  /** One more sample: the flag follows it when it is outside the band and stays otherwise. */
  lemma LatchedSnoc(s: seq<int>, x: int, b: Band)
    requires b.Proper()
    ensures Latched(s + [x], b) <==> b.Trips(x) || (Latched(s, b) && !b.Recovers(x))
  {
    var t := s + [x];
    if b.Trips(x) {
      assert b.Trips(t[|s|]);
    }
    if Latched(s, b) && !b.Recovers(x) {
      var i :| 0 <= i < |s| && b.Trips(s[i]) && forall j :: i < j < |s| ==> !b.Recovers(s[j]);
      assert b.Trips(t[i]) && forall j :: i < j < |t| ==> !b.Recovers(t[j]);
    }
    if Latched(t, b) {
      var i :| 0 <= i < |t| && b.Trips(t[i]) && forall j :: i < j < |t| ==> !b.Recovers(t[j]);
      if i < |s| {
        assert !b.Recovers(t[|s|]);
        assert b.Trips(s[i]) && forall j :: i < j < |s| ==> !b.Recovers(s[j]) by {
          assert forall j :: 0 <= j < |s| ==> s[j] == t[j];
        }
      }
    }
  }

  /** The four limits: where each fault comes on, and how far back the value must go before it clears. */
  lemma FaultLimits(f: seq<int>, v: int)
    ensures Latched(f + [v], OVERVOLTAGE) <==> v > 40000 || (Latched(f, OVERVOLTAGE) && v >= 35000)
    ensures Latched(f + [v], UNDERVOLTAGE) <==> v < 29000 || (Latched(f, UNDERVOLTAGE) && v <= 30000)
    ensures Latched(f + [v], OVERTEMPERATURE) <==> v > 60000 || (Latched(f, OVERTEMPERATURE) && v >= 55000)
    ensures Latched(f + [v], UNDERTEMPERATURE) <==> v < -20000 || (Latched(f, UNDERTEMPERATURE) && v <= -15000)
  {
    hide Latched;
    LatchedSnoc(f, v, OVERVOLTAGE);
    LatchedSnoc(f, v, UNDERVOLTAGE);
    LatchedSnoc(f, v, OVERTEMPERATURE);
    LatchedSnoc(f, v, UNDERTEMPERATURE);
  }

  /** Opposite faults whose trip sides lie beyond each other's recovery side are never latched together. */
  lemma NeverBoth(s: seq<int>, over: Band, under: Band)
    requires over.Over? && under.Under? && over.Proper() && under.Proper()
    requires over.limit >= under.recovery && under.limit <= over.recovery
    ensures !(Latched(s, over) && Latched(s, under))
  {
    if Latched(s, over) {
      var i :| 0 <= i < |s| && over.Trips(s[i]) && forall j :: i < j < |s| ==> !over.Recovers(s[j]);
      forall k | 0 <= k < |s| && under.Trips(s[k])
        ensures exists j :: k < j < |s| && under.Recovers(s[j])
      {
        assert k < i && under.Recovers(s[i]);
      }
    }
  }

  /** The last four samples lie above a limit, or below it. */
  predicate FourAbove(s: seq<int>, limit: int) {
    |s| >= 4 && forall i :: |s| - 4 <= i < |s| ==> s[i] > limit
  }

  predicate FourBelow(s: seq<int>, limit: int) {
    |s| >= 4 && forall i :: |s| - 4 <= i < |s| ==> s[i] < limit
  }

  /** Four successive samples above a limit, or below it, take the median there, however full the window is. */
  lemma FourDecide(samples: seq<int>, limit: int)
    ensures FourAbove(samples, limit) ==> Median(Last(samples, WINDOW)) > limit
    ensures FourBelow(samples, limit) ==> Median(Last(samples, WINDOW)) < limit
  {
    hide Below, Median;
    if |samples| >= 4 {
      var w := Last(samples, WINDOW);
      var n := |w| - 4;
      var four := w[n..];
      assert forall i :: 0 <= i < |four| ==> four[i] == samples[|samples| - 4 + i];
      SplitCounts(w, n, limit);
      SplitCounts(w, n, limit + 1);
      BelowBounds(w[..n], limit + 1);
      BelowBounds(four, limit);
      BelowBounds(four, limit + 1);
      MedianAboveIff(w, limit);
      MedianBelowIff(w, limit);
    }
  }

  /** Four successive samples beyond a limit trip it, and four beyond its recovery limit clear it, whatever came
      before. */
  lemma FourSamplesDecide(samples: seq<int>, b: Band)
    requires |samples| >= 4 && b.Proper()
    ensures (forall i :: |samples| - 4 <= i < |samples| ==> b.Trips(samples[i])) ==> Latched(Filtered(samples), b)
    ensures (forall i :: |samples| - 4 <= i < |samples| ==> b.Recovers(samples[i])) ==> !Latched(Filtered(samples), b)
  {
    hide Median, Filtered, Latched;
    FourDecide(samples, b.limit);
    FourDecide(samples, b.recovery);
    FilteredLast(samples);
    var n := |samples| - 1;
    var f := Filtered(samples);
    assert f == f[..n] + [f[n]];
    LatchedSnoc(f[..n], f[n], b);
  }

  lemma FilteredLast(samples: seq<int>)
    requires samples != []
    ensures Filtered(samples)[|samples| - 1] == Median(Last(samples, WINDOW))
  {}

  /** A filtered value is one of the last seven samples. */
  lemma FilteredMember(samples: seq<int>, i: nat) returns (j: nat)
    requires i < |samples|
    ensures j <= i < j + WINDOW && Filtered(samples)[i] == samples[j]
  {
    hide Filtered, Median;
    FilteredAt(samples, i);
    var p := samples[..i + 1];
    var w := Last(p, WINDOW);
    MedianMember(w);
    var k :| 0 <= k < |w| && w[k] == Median(w);
    LastAt(p, WINDOW, k);
    j := |p| - |w| + k;
  }

  lemma LastAt(s: seq<int>, n: nat, j: nat)
    requires j < |Last(s, n)|
    ensures Last(s, n)[j] == s[|s| - |Last(s, n)| + j]
  {}

  lemma {:induction false} FilteredAt(samples: seq<int>, i: nat)
    requires i < |samples|
    ensures Filtered(samples)[i] == Median(Last(samples[..i + 1], WINDOW))
  {
    hide Median, Last;
    var n := |samples| - 1;
    if i < n {
      FilteredAt(samples[..n], i);
      assert samples[..n][..i + 1] == samples[..i + 1];
    } else {
      assert samples[..i + 1] == samples;
    }
  }

  /** Samples that never went beyond a limit never tripped it. */
  lemma WithinLimit(samples: seq<int>, b: Band)
    requires forall i :: 0 <= i < |samples| ==> !b.Trips(samples[i])
    ensures !Latched(Filtered(samples), b)
  {
    hide Filtered, Band.Trips;
    forall i | 0 <= i < |samples| ensures !b.Trips(Filtered(samples)[i]) {
      var j := FilteredMember(samples, i);
    }
  }

  /** With a full window, up to three samples beyond an upper limit among the last seven do not newly trip it. */
  lemma ThreeHighOutliersTolerated(samples: seq<int>, x: int, w: seq<int>, b: Band)
    requires w == Last(samples + [x], WINDOW) && b.Over? && b.Proper()
    requires |samples| + 1 >= WINDOW && AtMost(w, b.limit) >= WINDOW - 3
    requires !Latched(Filtered(samples), b)
    ensures !Latched(Filtered(samples + [x]), b)
  {
    hide Below, Median, Filtered, Latched, Last;
    MedianAboveIff(w, b.limit);
    FilteredSnoc(samples, x);
    LatchedSnoc(Filtered(samples), Median(w), b);
  }

  /** And up to three below a lower limit do not newly trip that one. */
  lemma ThreeLowOutliersTolerated(samples: seq<int>, x: int, w: seq<int>, b: Band)
    requires w == Last(samples + [x], WINDOW) && b.Under? && b.Proper()
    requires |samples| + 1 >= WINDOW && Below(w, b.limit) <= 3
    requires !Latched(Filtered(samples), b)
    ensures !Latched(Filtered(samples + [x]), b)
  {
    hide Below, Median, Filtered, Latched, Last;
    MedianBelowIff(w, b.limit);
    FilteredSnoc(samples, x);
    LatchedSnoc(Filtered(samples), Median(w), b);
  }

  // ---- current stress ----

  const STRESS_SCALE := 1_000_000
  const RECOVERY_THRESHOLD := 90_000
  const RECOVERY_SAMPLES := 100

  function Abs(x: int): nat { if x >= 0 then x else -x }

  /** The stress one sample adds: the scale times the 10 ms period over the time allowed at that level. */
  function Increment(current: int): (q: nat)
    ensures q <= STRESS_SCALE
  {
    if Abs(current) >= 170_000 then STRESS_SCALE
    else if Abs(current) >= 150_000 then STRESS_SCALE * 10 / 5_000
    else if Abs(current) >= 120_000 then STRESS_SCALE * 10 / 10_000
    else if Abs(current) >= 100_000 then STRESS_SCALE * 10 / 20_000
    else 0
  }

  function Stress(s: seq<int>): nat {
    if s == [] then 0 else Stress(s[..|s| - 1]) + Increment(s[|s| - 1])
  }

  /** How many samples at the end lie below the recovery threshold. */
  function TrailingLow(s: seq<int>): nat {
    if s == [] || Abs(s[|s| - 1]) >= RECOVERY_THRESHOLD then 0 else TrailingLow(s[..|s| - 1]) + 1
  }

  /** Armed since the last recovery, or tripped, with the position from which samples count. */
  datatype Phase = Armed(since: nat) | Tripped(since: nat)

  /** The overcurrent rule on a whole history: it trips when the increments since the last recovery sum to the scale,
      and recovers after 100 consecutive low samples after the trip. */
  function PhaseOf(s: seq<int>): (p: Phase)
    ensures p.since <= |s|
    ensures p.Armed? ==> Stress(s[p.since..]) < STRESS_SCALE
    ensures p.Tripped? ==> TrailingLow(s[p.since..]) < RECOVERY_SAMPLES
  {
    if s == [] then Armed(0) else NextPhase(PhaseOf(s[..|s| - 1]), s)
  }

  /** The phase after the last sample of s, given the phase before it. */
  function NextPhase(p: Phase, s: seq<int>): (q: Phase)
    requires p.since <= |s|
    ensures q.since <= |s|
    ensures q.Armed? ==> Stress(s[q.since..]) < STRESS_SCALE
    ensures q.Tripped? ==> TrailingLow(s[q.since..]) < RECOVERY_SAMPLES
  {
    match p
    case Armed(r) => if Stress(s[r..]) >= STRESS_SCALE then Tripped(|s|) else Armed(r)
    case Tripped(t) => if TrailingLow(s[t..]) >= RECOVERY_SAMPLES then Armed(|s|) else Tripped(t)
  }

  lemma NoSamples()
    ensures Stress([]) == 0 && TrailingLow([]) == 0
  {}

  lemma SumsSnoc(u: seq<int>, x: int)
    ensures Stress(u + [x]) == Stress(u) + Increment(x)
    ensures TrailingLow(u + [x]) == if Abs(x) >= RECOVERY_THRESHOLD then 0 else TrailingLow(u) + 1
  {
    assert (u + [x])[..|u|] == u;
  }

  lemma PhaseOnce(s: seq<int>, x: int)
    ensures PhaseOf(s + [x]) == NextPhase(PhaseOf(s), s + [x])
  {
    assert (s + [x])[..|s|] == s;
  }

  /** One sample of the rule, in terms of the samples u that count since the last change of phase. */
  lemma NextPhaseSnoc(s: seq<int>, x: int, p: Phase, u: seq<int>)
    requires p.since <= |s| && u == s[p.since..]
    ensures (s + [x])[p.since..] == u + [x]
    ensures NextPhase(p, s + [x]) ==
              match p
              case Armed(r) => if Stress(u) + Increment(x) >= STRESS_SCALE then Tripped(|s| + 1) else Armed(r)
              case Tripped(t) =>
                if Abs(x) < RECOVERY_THRESHOLD && TrailingLow(u) + 1 >= RECOVERY_SAMPLES then Armed(|s| + 1)
                else Tripped(t)
  {
    hide Stress, TrailingLow, Increment, Abs;
    SumsSnoc(u, x);
    assert (s + [x])[p.since..] == u + [x];
  }

  // ---- the overcurrent rule without its phases ----

  /** The stretch from one boundary to k has run its course: the increments sum to the scale where the fault is off,
      and the samples end in 100 low ones where it is on. */
  ghost predicate Complete(s: seq<int>, on: bool, from: nat, k: nat)
    requires from <= k <= |s|
  {
    if on then TrailingLow(s[from..k]) >= RECOVERY_SAMPLES else Stress(s[from..k]) >= STRESS_SCALE
  }

  ghost predicate Unfinished(s: seq<int>, on: bool, from: nat, to: nat) {
    from <= to <= |s| && forall k :: from <= k < to ==> !Complete(s, on, from, k)
  }

  /** The boundaries of a history: each stretch ends with the very sample that completes it, and the last one is not
      complete. The fault is off in the first stretch and alternates. */
  ghost predicate Boundaries(s: seq<int>, b: seq<nat>) {
    && b != [] && b[0] == 0
    && (forall i :: 0 < i < |b| ==> BoundaryAt(s, b, i))
    && Unfinished(s, On(|b|), b[|b| - 1], |s|) && !Complete(s, On(|b|), b[|b| - 1], |s|)
  }

  /** Whether the fault is on in the n-th stretch. */
  predicate On(n: nat) { n % 2 == 0 }

  ghost predicate BoundaryAt(s: seq<int>, b: seq<nat>, i: nat)
    requires 0 < i < |b|
  {
    b[i - 1] < b[i] && Unfinished(s, On(i), b[i - 1], b[i]) && Complete(s, On(i), b[i - 1], b[i])
  }

  /** Every history has one list of boundaries. */
  lemma BoundariesUnique(s: seq<int>, b: seq<nat>, c: seq<nat>)
    requires Boundaries(s, b) && Boundaries(s, c)
    ensures b == c
  {
    hide Complete, On;
    NotShorter(s, b, c);
    NotShorter(s, c, b);
    forall i | 0 <= i < |b| && i < |c| ensures b[i] == c[i] {
      SameBoundary(s, b, c, i);
    }
  }

  lemma NotShorter(s: seq<int>, b: seq<nat>, c: seq<nat>)
    requires Boundaries(s, b) && Boundaries(s, c)
    ensures |b| >= |c|
  {
    hide Complete, On;
    if |b| < |c| {
      assert BoundaryAt(s, c, |b|);
      SameBoundary(s, b, c, |b| - 1);
    }
  }

  lemma {:induction false} SameBoundary(s: seq<int>, b: seq<nat>, c: seq<nat>, i: nat)
    requires Boundaries(s, b) && Boundaries(s, c) && i < |b| && i < |c|
    ensures b[i] == c[i]
  {
    hide Complete, On;
    if i > 0 {
      SameBoundary(s, b, c, i - 1);
      assert BoundaryAt(s, b, i) && BoundaryAt(s, c, i);
    }
  }

  /** The phases are the stretches between the boundaries: overcurrent is active exactly from the sample on which the
      increments since the last recovery reach the scale to the 100th consecutive low sample after it. */
  lemma {:induction false} PhaseHistory(s: seq<int>) returns (b: seq<nat>)
    ensures Boundaries(s, b)
    ensures PhaseOf(s) == if On(|b|) then Tripped(b[|b| - 1]) else Armed(b[|b| - 1])
  {
    if s == [] {
      b := [0];
      assert s[0..0] == [];
    } else {
      var n := |s| - 1;
      b := PhaseHistory(s[..n]);
      assert s == s[..n] + [s[n]];
      hide PhaseOf;
      PhaseOnce(s[..n], s[n]);
      b := BoundariesMore(s[..n], s[n], b);
    }
  }

  lemma SameComplete(s: seq<int>, v: seq<int>, on: bool, from: nat, k: nat)
    requires from <= k <= |s| && s <= v
    ensures Complete(v, on, from, k) == Complete(s, on, from, k)
  {
    assert v[from..k] == s[from..k];
  }

  lemma SameBoundaries(s: seq<int>, v: seq<int>, b: seq<nat>)
    requires Boundaries(s, b) && s <= v
    ensures forall i :: 0 < i < |b| ==> BoundaryAt(v, b, i)
    ensures Unfinished(v, On(|b|), b[|b| - 1], |s| + if |s| < |v| then 1 else 0)
  {
    hide Complete, On;
    forall on, from: nat, k: nat | from <= k <= |s| ensures Complete(v, on, from, k) == Complete(s, on, from, k) {
      SameComplete(s, v, on, from, k);
    }
    forall i | 0 < i < |b| ensures BoundaryAt(v, b, i) {
      assert BoundaryAt(s, b, i);
    }
  }

  lemma BoundariesMore(s: seq<int>, x: int, b: seq<nat>) returns (c: seq<nat>)
    requires Boundaries(s, b)
    ensures Boundaries(s + [x], c)
    ensures var p := if On(|b|) then Tripped(b[|b| - 1]) else Armed(b[|b| - 1]);
            NextPhase(p, s + [x]) == if On(|c|) then Tripped(c[|c| - 1]) else Armed(c[|c| - 1])
  {
    var v, from := s + [x], b[|b| - 1];
    SameBoundaries(s, v, b);
    assert v[from..|v|] == v[from..];
    NoSamples();
    assert v[|v|..|v|] == [];
    hide Stress, TrailingLow, Unfinished;
    if Complete(v, On(|b|), from, |v|) {
      c := b + [|v|];
      assert BoundaryAt(v, c, |b|);
      forall i | 0 < i < |c| ensures BoundaryAt(v, c, i) {
        if i < |b| {
          assert BoundaryAt(v, b, i);
        }
      }
      NothingUnfinished(v, On(|c|));
    } else {
      c := b;
    }
  }

  lemma NothingUnfinished(v: seq<int>, on: bool)
    ensures Unfinished(v, on, |v|, |v|)
  {}

  // ---- how long an overload may last ----

  /** Whatever stress has been accumulated: after u more samples of at least q each the fault is on, or they all
      count. */
  lemma {:induction false} OverloadCounts(s: seq<int>, u: seq<int>, q: nat)
    requires q > 0 && forall i :: 0 <= i < |u| ==> Increment(u[i]) >= q
    ensures var p := PhaseOf(s + u);
            p.Armed? ==> p.since <= |s| && Stress((s + u)[p.since..]) >= Times(|u|, q)
  {
    hide Times, PhaseOf, NextPhase, Stress, TrailingLow;
    TimesOne(q);
    if u == [] {
      assert s + u == s;
    } else {
      var n := |u| - 1;
      var t, x := s + u[..n], u[n];
      OverloadCounts(s, u[..n], q);
      TimesSum(n, 1, q);
      assert s + u == t + [x];
      PhaseOnce(t, x);
      NextPhaseSnoc(t, x, PhaseOf(t), t[PhaseOf(t).since..]);
      SumsSnoc(t[PhaseOf(t).since..], x);
    }
  }

  /** From any history, however far the stress has come and whatever the levels in between: 500 samples in a row of at
      least 150 A, 1000 of at least 120 A, 2000 of at least 100 A, or one of at least 170 A leave the fault on. */
  lemma OverloadTrips(s: seq<int>, u: seq<int>)
    ensures |u| >= 500 && (forall i :: 0 <= i < |u| ==> Abs(u[i]) >= 150_000) ==> PhaseOf(s + u).Tripped?
    ensures |u| >= 1000 && (forall i :: 0 <= i < |u| ==> Abs(u[i]) >= 120_000) ==> PhaseOf(s + u).Tripped?
    ensures |u| >= 2000 && (forall i :: 0 <= i < |u| ==> Abs(u[i]) >= 100_000) ==> PhaseOf(s + u).Tripped?
    ensures |u| >= 1 && (forall i :: 0 <= i < |u| ==> Abs(u[i]) >= 170_000) ==> PhaseOf(s + u).Tripped?
  {
    hide Stress, PhaseOf, NextPhase;
    if |u| >= 500 && forall i :: 0 <= i < |u| ==> Increment(u[i]) >= 2000 {
      OverloadCounts(s, u, 2000);
      PhaseBounds(s + u);
    }
    if |u| >= 1000 && forall i :: 0 <= i < |u| ==> Increment(u[i]) >= 1000 {
      OverloadCounts(s, u, 1000);
      PhaseBounds(s + u);
    }
    if |u| >= 2000 && forall i :: 0 <= i < |u| ==> Increment(u[i]) >= 500 {
      OverloadCounts(s, u, 500);
      PhaseBounds(s + u);
    }
    if |u| >= 1 && forall i :: 0 <= i < |u| ==> Increment(u[i]) >= STRESS_SCALE {
      OverloadCounts(s, u, STRESS_SCALE);
      PhaseBounds(s + u);
    }
  }

  /** The last n samples have at least the given magnitude. */
  predicate Reaches(s: seq<int>, n: nat, level: nat) {
    n <= |s| && forall k :: |s| - n <= k < |s| ==> Abs(s[k]) >= level
  }

  /** An overload that trips within the raw samples it lasts: by level, the time allowed at it and six samples more,
      for the windows to fill. */
  predicate Overload(s: seq<int>, n: nat, level: nat) {
    && Reaches(s, n, level)
    && (|| (n >= 506 && level >= 150_000) || (n >= 1006 && level >= 120_000) || (n >= 2006 && level >= 100_000)
        || (n >= 7 && level >= 170_000))
  }

  /** When the last n samples reach a level, so do the last n - 6 filtered ones: their windows hold nothing else. */
  lemma FilteredReaches(samples: seq<int>, n: nat, level: nat)
    requires WINDOW - 1 <= n && Reaches(samples, n, level)
    ensures Reaches(Filtered(samples), n - (WINDOW - 1), level)
  {
    hide Filtered, Abs;
    forall i | |samples| - n + WINDOW - 1 <= i < |samples| ensures Abs(Filtered(samples)[i]) >= level {
      var j := FilteredMember(samples, i);
    }
  }

  lemma ReachingTrips(f: seq<int>, m: nat, level: nat)
    requires Reaches(f, m, level)
    requires || (m >= 500 && level >= 150_000) || (m >= 1000 && level >= 120_000) || (m >= 2000 && level >= 100_000)
             || (m >= 1 && level >= 170_000)
    ensures PhaseOf(f).Tripped?
  {
    hide PhaseOf, Abs;
    var from := |f| - m;
    var u := f[from..];
    assert f == f[..from] + u;
    assert forall i :: 0 <= i < |u| ==> Abs(u[i]) >= level;
    OverloadTrips(f[..from], u);
  }

  /** Six more raw samples than filtered ones make an overload trip, from any history and at any mix of levels. */
  lemma RawOverloadTrips(samples: seq<int>, n: nat, level: nat)
    requires Overload(samples, n, level)
    ensures PhaseOf(Filtered(samples)).Tripped?
  {
    hide PhaseOf, Filtered, Reaches;
    FilteredReaches(samples, n, level);
    ReachingTrips(Filtered(samples), n - (WINDOW - 1), level);
  }

  // ---- how overcurrent ends, and what never causes it ----

  /** Currents below 100 A add no stress. */
  lemma {:induction false} QuietNeverTrips(s: seq<int>)
    requires forall i :: 0 <= i < |s| ==> Abs(s[i]) < 100_000
    ensures PhaseOf(s) == Armed(0) && Stress(s) == 0
  {
    hide PhaseOf, NextPhase, Stress, TrailingLow;
    NoSamples();
    if s == [] {
      NothingHappened();
    } else {
      var n := |s| - 1;
      var t := s[..n];
      assert s == t + [s[n]] && t == t[0..];
      QuietNeverTrips(t);
      PhaseOnce(t, s[n]);
      NextPhaseSnoc(t, s[n], Armed(0), t);
      SumsSnoc(t, s[n]);
    }
  }

  lemma NothingHappened()
    ensures PhaseOf([]) == Armed(0)
  {}

  /** While currents stay below 90 A no fault comes on, and one that is on counts them all. */
  lemma {:induction false} LowCounts(s: seq<int>, u: seq<int>)
    requires forall i :: 0 <= i < |u| ==> Abs(u[i]) < 90_000
    ensures PhaseOf(s + u).Tripped? ==>
              PhaseOf(s) == PhaseOf(s + u)
              && TrailingLow((s + u)[PhaseOf(s).since..]) == TrailingLow(s[PhaseOf(s).since..]) + |u|
  {
    hide PhaseOf, NextPhase, Stress, TrailingLow;
    if u == [] {
      assert s + u == s;
    } else {
      var n := |u| - 1;
      var t, x := s + u[..n], u[n];
      LowCounts(s, u[..n]);
      assert s + u == t + [x];
      PhaseOnce(t, x);
      PhaseBounds(t);
      NextPhaseSnoc(t, x, PhaseOf(t), t[PhaseOf(t).since..]);
      SumsSnoc(t[PhaseOf(t).since..], x);
    }
  }

  /** After 100 samples in a row below 90 A the fault is off, whatever came before. */
  lemma LowRecovers(s: seq<int>, u: seq<int>)
    requires |u| >= 100 && forall i :: 0 <= i < |u| ==> Abs(u[i]) < 90_000
    ensures PhaseOf(s + u).Armed?
  {
    hide PhaseOf;
    LowCounts(s, u);
    PhaseBounds(s + u);
  }

  /** Counted from a sample of at least 90 A, or from the one it came on with, the fault clears exactly with the 100th
      sample in a row below 90 A. */
  lemma RecoveryTimes(s: seq<int>, x: int, u: seq<int>)
    requires Abs(x) >= 90_000 && PhaseOf(s + [x]).Tripped?
    requires |u| <= 100 && forall i :: 0 <= i < |u| ==> Abs(u[i]) < 90_000
    ensures PhaseOf(s + [x] + u).Armed? <==> |u| == 100
  {
    hide PhaseOf, TrailingLow;
    var t := s + [x];
    NoSamples();
    FreshCount(s, x);
    if |u| == 100 {
      LowRecovers(t, u);
    } else {
      StillTripped(t, u);
    }
  }

  lemma FreshCount(s: seq<int>, x: int)
    requires Abs(x) >= 90_000 && PhaseOf(s + [x]).Tripped?
    ensures TrailingLow((s + [x])[PhaseOf(s + [x]).since..]) == 0
  {
    hide PhaseOf;
    var t := s + [x];
    NoSamples();
    var since := PhaseOf(t).since;
    if since <= |s| {
      assert t[since..] == s[since..] + [x];
      SumsSnoc(s[since..], x);
    } else {
      assert t[since..] == [];
    }
  }

  lemma {:induction false} StillTripped(s: seq<int>, u: seq<int>)
    requires PhaseOf(s).Tripped? && TrailingLow(s[PhaseOf(s).since..]) == 0
    requires |u| < 100 && forall i :: 0 <= i < |u| ==> Abs(u[i]) < 90_000
    ensures PhaseOf(s + u).Tripped?
  {
    hide PhaseOf, NextPhase, Stress, TrailingLow;
    if u == [] {
      assert s + u == s;
    } else {
      var n := |u| - 1;
      var t, x := s + u[..n], u[n];
      StillTripped(s, u[..n]);
      LowCounts(s, u[..n]);
      assert s + u == t + [x];
      PhaseOnce(t, x);
      NextPhaseSnoc(t, x, PhaseOf(t), t[PhaseOf(t).since..]);
    }
  }

  lemma LastHundredRecover(f: seq<int>)
    requires |f| >= 100 && forall i :: |f| - 100 <= i < |f| ==> Abs(f[i]) < 90_000
    ensures PhaseOf(f).Armed?
  {
    hide PhaseOf, Abs;
    var from := |f| - 100;
    var u := f[from..];
    assert f == f[..from] + u;
    assert forall i :: 0 <= i < |u| ==> u[i] == f[from + i];
    LowRecovers(f[..from], u);
  }

  /** In raw samples it is 106: six more until every window holds nothing else. */
  lemma RawLowRecovers(samples: seq<int>)
    requires |samples| >= 106 && forall i :: |samples| - 106 <= i < |samples| ==> Abs(samples[i]) < 90_000
    ensures PhaseOf(Filtered(samples)).Armed?
  {
    hide PhaseOf, Filtered, Abs;
    var f := Filtered(samples);
    forall i | |f| - 100 <= i < |f| ensures Abs(f[i]) < 90_000 {
      var j := FilteredMember(samples, i);
      assert |samples| - 106 <= j;
    }
    LastHundredRecover(f);
  }

  /** Raw currents that never reached 100 A never tripped it. */
  lemma RawQuietNeverTrips(samples: seq<int>)
    requires forall i :: 0 <= i < |samples| ==> Abs(samples[i]) < 100_000
    ensures PhaseOf(Filtered(samples)) == Armed(0)
  {
    hide PhaseOf, Filtered, Abs;
    var f := Filtered(samples);
    forall i | 0 <= i < |f| ensures Abs(f[i]) < 100_000 {
      var j := FilteredMember(samples, i);
    }
    QuietNeverTrips(f);
  }

  lemma PhaseBounds(s: seq<int>)
    ensures var p := PhaseOf(s); p.Armed? ==> Stress(s[p.since..]) < STRESS_SCALE
  {}

  /** With a constant increment q from a fresh start, the trip comes with the sample completing the scale. */
  lemma {:induction false} TripTime(s: seq<int>, u: seq<int>, q: nat)
    requires PhaseOf(s) == Armed(|s|) && q > 0
    requires forall i :: 0 <= i < |u| ==> Increment(u[i]) == q
    requires |u| > 0 ==> Times(|u| - 1, q) < STRESS_SCALE
    ensures if Times(|u|, q) < STRESS_SCALE then PhaseOf(s + u) == Armed(|s|) && Stress((s + u)[|s|..]) == Times(|u|, q)
            else PhaseOf(s + u) == Tripped(|s| + |u|)
  {
    hide Times, PhaseOf, NextPhase, Stress, Increment;
    TimesOne(q);
    if u == [] {
      assert s + u == s && s[|s|..] == [];
      NoSamples();
    } else {
      var n := |u| - 1;
      var t := s + u[..n];
      TimesSum(n, 1, q);
      TimesSum(n - 1, 1, q);
      TripTime(s, u[..n], q);
      assert s + u == t + [u[n]];
      PhaseOnce(t, u[n]);
      NextPhaseSnoc(t, u[n], PhaseOf(t), t[|s|..]);
      SumsSnoc(t[|s|..], u[n]);
    }
  }

  /** Steady overcurrent trips with the 500th, 1000th or 2000th sample, by level, and at once at cut-off. */
  lemma TripTimes(s: seq<int>, u: seq<int>)
    requires PhaseOf(s) == Armed(|s|) && |u| > 0
    requires forall i :: 0 <= i < |u| ==> Increment(u[i]) == Increment(u[0])
    ensures 150_000 <= Abs(u[0]) < 170_000 && |u| <= 500 ==> (PhaseOf(s + u).Tripped? <==> |u| == 500)
    ensures 120_000 <= Abs(u[0]) < 150_000 && |u| <= 1000 ==> (PhaseOf(s + u).Tripped? <==> |u| == 1000)
    ensures 100_000 <= Abs(u[0]) < 120_000 && |u| <= 2000 ==> (PhaseOf(s + u).Tripped? <==> |u| == 2000)
    ensures 170_000 <= Abs(u[0]) && |u| == 1 ==> PhaseOf(s + u).Tripped?
  {
    var q := Increment(u[0]);
    if q == 2000 && |u| <= 500 { TripTime(s, u, 2000); }
    if q == 1000 && |u| <= 1000 { TripTime(s, u, 1000); }
    if q == 500 && |u| <= 2000 { TripTime(s, u, 500); }
    if q == STRESS_SCALE && |u| == 1 { TripTime(s, u, STRESS_SCALE); }
  }
}
