/** The bounded circular queue both threads use: when it is full, the oldest item makes room for the new one. */
module DropOldestQueue {
  import opened Arithmetic
  import opened Sequences

  const DEPTH := 16

  /** The items at the positions of s marked b. */
  function Select<T>(s: seq<T>, marks: seq<bool>, b: bool): seq<T>
    requires |marks| <= |s|
  {
    if marks == [] then []
    else
      var n := |marks| - 1;
      Select(s, marks[..n], b) + if marks[n] == b then [s[n]] else []
  }

  /** What has happened to the items so far; `served` says of every item that has left whether it was popped or
      dropped. */
  datatype Trace<T> = Trace(pushed: seq<T>, served: seq<bool>, popped: seq<T>, dropped: seq<T>)

  /** The items that left are the oldest ones, and split in order into the popped and the dropped. */
  ghost predicate Sound<T>(t: Trace<T>) {
    && |t.served| <= |t.pushed| <= |t.served| + DEPTH
    && t.popped == Select(t.pushed, t.served, true)
    && t.dropped == Select(t.pushed, t.served, false)
  }

  function Queued<T>(t: Trace<T>): seq<T>
    requires |t.served| <= |t.pushed|
  {
    t.pushed[|t.served|..]
  }

  function AfterDrop<T>(t: Trace<T>): Trace<T>
    requires |t.served| < |t.pushed|
  {
    t.(served := t.served + [false], dropped := t.dropped + [t.pushed[|t.served|]])
  }

  function AfterPush<T>(t: Trace<T>, x: T): Trace<T> {
    var u := if |t.pushed| >= |t.served| + DEPTH then AfterDrop(t) else t;
    u.(pushed := t.pushed + [x])
  }

  function AfterPop<T>(t: Trace<T>): Trace<T> {
    if |t.pushed| <= |t.served| then t
    else t.(served := t.served + [true], popped := t.popped + [t.pushed[|t.served|]])
  }

  lemma {:induction false} SelectExtend<T>(s: seq<T>, x: T, marks: seq<bool>, b: bool)
    requires |marks| <= |s|
    ensures Select(s + [x], marks, b) == Select(s, marks, b)
  {
    if marks != [] {
      SelectExtend(s, x, marks[..|marks| - 1], b);
    }
  }

  lemma SelectMark<T>(s: seq<T>, marks: seq<bool>, m: bool, b: bool)
    requires |marks| < |s|
    ensures Select(s, marks + [m], b) == Select(s, marks, b) + if m == b then [s[|marks|]] else []
  {
    assert (marks + [m])[..|marks|] == marks;
  }

  lemma DropSound<T>(t: Trace<T>)
    requires Sound(t) && |t.served| < |t.pushed|
    ensures Sound(AfterDrop(t))
  {
    hide Select;
    SelectMark(t.pushed, t.served, false, true);
    SelectMark(t.pushed, t.served, false, false);
  }

  lemma AppendSound<T>(t: Trace<T>, x: T)
    requires Sound(t) && |t.pushed| < |t.served| + DEPTH
    ensures Sound(t.(pushed := t.pushed + [x]))
  {
    hide Select;
    SelectExtend(t.pushed, x, t.served, true);
    SelectExtend(t.pushed, x, t.served, false);
  }

  /** A push appends and keeps the last 16, so that the new item is always queued. */
  lemma PushKeepsLast<T>(t: Trace<T>, x: T)
    requires Sound(t)
    ensures Sound(AfterPush(t, x))
    ensures Queued(AfterPush(t, x)) == Last(Queued(t) + [x], 16)
    ensures x in Queued(AfterPush(t, x))
  {
    hide Select;
    var u := t;
    if |t.pushed| >= |t.served| + DEPTH {
      DropSound(t);
      u := AfterDrop(t);
    }
    AppendSound(u, x);
    var q := Queued(AfterPush(t, x));
    assert q == Last(Queued(t) + [x], DEPTH);
    assert q[|q| - 1] == x;
  }

  /** A pop takes the oldest queued item. */
  lemma PopTakesFirst<T>(t: Trace<T>)
    requires Sound(t)
    ensures Sound(AfterPop(t))
    ensures Queued(t) == [] ==> AfterPop(t) == t
    ensures Queued(t) != [] ==>
              Queued(AfterPop(t)) == Queued(t)[1..] && AfterPop(t).popped == t.popped + [Queued(t)[0]]
  {
    hide Select;
    if Queued(t) != [] {
      SelectMark(t.pushed, t.served, true, true);
      SelectMark(t.pushed, t.served, true, false);
    }
  }

  // ---- runs ----

  datatype Op<T> = Push(item: T) | Pop

  function RunQueue<T>(ops: seq<Op<T>>): Trace<T> {
    if ops == [] then Trace([], [], [], [])
    else
      var t := RunQueue(ops[..|ops| - 1]);
      match ops[|ops| - 1]
      case Push(x) => AfterPush(t, x)
      case Pop => AfterPop(t)
  }

  ghost predicate Increasing(s: seq<nat>) {
    forall i, j :: 0 <= i < j < |s| ==> s[i] < s[j]
  }

  /** s is found in t at the given places, in order. */
  ghost predicate FoundAt<T>(s: seq<T>, t: seq<T>, places: seq<nat>) {
    |places| == |s| && Increasing(places) && forall i :: 0 <= i < |s| ==> places[i] < |t| && s[i] == t[places[i]]
  }

  lemma {:induction false} SelectSplits<T>(s: seq<T>, marks: seq<bool>)
    requires |marks| <= |s|
    ensures |Select(s, marks, true)| + |Select(s, marks, false)| == |marks|
  {
    if marks != [] {
      SelectSplits(s, marks[..|marks| - 1]);
    }
  }

  lemma {:induction false} SelectInOrder<T>(s: seq<T>, marks: seq<bool>, b: bool) returns (places: seq<nat>)
    requires |marks| <= |s|
    ensures FoundAt(Select(s, marks, b), s, places)
    ensures forall i :: 0 <= i < |places| ==> places[i] < |marks|
  {
    places := [];
    if marks != [] {
      var n := |marks| - 1;
      places := SelectInOrder(s, marks[..n], b);
      if marks[n] == b {
        places := places + [n];
      }
    }
  }

  /** On every run of pushes and pops: every item pushed is popped, dropped or queued, exactly once, and the items
      popped come out in the order in which they went in. */
  lemma {:induction false} Conservation<T>(ops: seq<Op<T>>)
    ensures Sound(RunQueue(ops))
    ensures var t := RunQueue(ops); |t.pushed| == |t.popped| + |t.dropped| + |Queued(t)|
    ensures exists places :: FoundAt(RunQueue(ops).popped, RunQueue(ops).pushed, places)
  {
    SoundRun(ops);
    var t := RunQueue(ops);
    SelectSplits(t.pushed, t.served);
    var places := SelectInOrder(t.pushed, t.served, true);
  }

  lemma {:induction false} SoundRun<T>(ops: seq<Op<T>>)
    ensures Sound(RunQueue(ops))
  {
    hide AfterPush, AfterPop;
    if ops != [] {
      var t := RunQueue(ops[..|ops| - 1]);
      SoundRun(ops[..|ops| - 1]);
      match ops[|ops| - 1] {
        case Push(x) => PushKeepsLast(t, x);
        case Pop => PopTakesFirst(t);
      }
    }
  }

  // ---- the queue ----

  lemma AfterPopLengths<T>(t: Trace<T>)
    ensures |t.pushed| <= |t.served| ==> AfterPop(t) == t
    ensures AfterPop(t).pushed == t.pushed
    ensures |t.pushed| > |t.served| ==> |AfterPop(t).served| == |t.served| + 1
  {}

  class Queue<T> {
    const items: array<T>
    var head: nat
    var tail: nat
    var count: nat
    ghost var trace: Trace<T>

    ghost predicate Valid()
      reads this, items
    {
      && items.Length == DEPTH && count <= DEPTH
      && Sound(trace) && |trace.pushed| == |trace.served| + count
      && tail == |trace.served| % DEPTH && head == |trace.pushed| % DEPTH
      && (forall p :: |trace.served| <= p < |trace.pushed| ==> items[p % DEPTH] == trace.pushed[p])
    }

    constructor (blank: T)
      ensures Valid() && fresh(items) && trace == Trace([], [], [], [])
    {
      items := new T[DEPTH](_ => blank);
      head, tail, count := 0, 0, 0;
      trace := Trace([], [], [], []);
    }

    method Push(x: T)
      requires Valid()
      modifies this, items
      ensures Valid() && trace == AfterPush(old(trace), x)
    {
      hide Valid, Sound, Select;
      if IsFull() {
        DropOldest();
      }
      Append(x);
    }

    predicate IsFull()
      requires Valid()
      reads this, items
      ensures IsFull() <==> |trace.pushed| >= |trace.served| + DEPTH
    {
      count >= DEPTH
    }

    method DropOldest()
      requires Valid() && |trace.pushed| >= |trace.served| + DEPTH
      modifies this
      ensures Valid() && trace == AfterDrop(old(trace)) && |trace.pushed| < |trace.served| + DEPTH
    {
      DropSound(trace);
      Advance(|trace.served|, DEPTH);
      hide Sound, Select;
      trace := AfterDrop(trace);
      tail := (tail + 1) % DEPTH;
      count := count - 1;
    }

    method Append(x: T)
      requires Valid() && |trace.pushed| < |trace.served| + DEPTH
      modifies this, items
      ensures Valid() && trace == old(trace).(pushed := old(trace).pushed + [x])
    {
      AppendSound(trace, x);
      Advance(|trace.pushed|, DEPTH);
      hide Sound, Select;
      forall p | |trace.served| <= p < |trace.pushed| ensures p % DEPTH != head {
        DistinctCells(p, |trace.pushed|, DEPTH);
      }
      items[head] := x;
      head := (head + 1) % DEPTH;
      count := count + 1;
      trace := trace.(pushed := trace.pushed + [x]);
    }

    /** Gives the oldest item, or the given one unchanged when there is none. */
    method Pop(x: T) returns (ok: bool, y: T)
      requires Valid()
      modifies this
      ensures Valid() && trace == AfterPop(old(trace))
      ensures ok == (|old(trace).served| < |old(trace).pushed|)
      ensures y == if ok then old(trace).pushed[|old(trace).served|] else x
    {
      PopTakesFirst(trace);
      hide Sound, Select, AfterPop;
      AfterPopLengths(trace);
      Advance(|trace.served|, DEPTH);
      y, ok := x, count > 0;
      if count == 0 {
        return;
      }
      y := items[tail];
      tail := (tail + 1) % DEPTH;
      count := count - 1;
      trace := AfterPop(trace);
    }
  }
}
