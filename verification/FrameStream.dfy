/** The frames a byte stream contains, as the resynchronising parser cuts them out. */
module FrameStream {
  import opened Bytes
  import opened Protocol

  const LEN_FIELD_END := 4

  /** What the parser does at position k of a stream: wait for more bytes, drop one byte, or take n bytes. */
  datatype Verdict = Wait | Drop | Take(n: nat)

  function VerdictAt(s: seq<byte>, k: nat, max: nat): (v: Verdict)
    ensures v.Take? ==> OVERHEAD <= v.n <= max && k + v.n <= |s|
    ensures v.Drop? ==> k < |s|
  {
    if k + LEN_FIELD_END > |s| then Wait
    else if s[k] != SOF then Drop
    else
      var total := FromLe16([s[k + 2], s[k + 3]]) + OVERHEAD;
      if total > max then Drop
      else if k + total > |s| then Wait
      else if s[k + total - 1] != EOF then Drop
      else Take(total)
  }

  /** The frames delivered from position k on. */
  function Frames(s: seq<byte>, k: nat, max: nat): seq<seq<byte>>
    decreases |s| - k
  {
    match VerdictAt(s, k, max)
    case Wait => []
    case Drop => Frames(s, k + 1, max)
    case Take(n) => [s[k..k + n]] + Frames(s, k + n, max)
  }

  /** More bytes never change a decision that was made. */
  lemma VerdictStable(s: seq<byte>, t: seq<byte>, k: nat, max: nat)
    requires s <= t && VerdictAt(s, k, max) != Wait
    ensures VerdictAt(t, k, max) == VerdictAt(s, k, max)
  {
    assert forall i :: 0 <= i < |s| ==> s[i] == t[i];
  }

  /** More bytes only extend the list of frames. */
  lemma {:induction false} FramesExtend(s: seq<byte>, t: seq<byte>, k: nat, max: nat)
    requires s <= t
    ensures Frames(s, k, max) <= Frames(t, k, max)
    decreases |s| - k
  {
    hide VerdictAt;
    match VerdictAt(s, k, max)
    case Wait =>
    case Drop =>
      VerdictStable(s, t, k, max);
      FramesExtend(s, t, k + 1, max);
    case Take(n) =>
      VerdictStable(s, t, k, max);
      FramesExtend(s, t, k + n, max);
      assert s[k..k + n] == t[k..k + n];
  }

  /** However the stream goes on, its frames are `delivered` followed by those from position k on. */
  ghost predicate Reached(s: seq<byte>, k: nat, max: nat, delivered: seq<seq<byte>>) {
    forall t :: s <= t ==> Frames(t, 0, max) == delivered + Frames(t, k, max)
  }

  lemma ReachedExtend(s: seq<byte>, t: seq<byte>, k: nat, max: nat, delivered: seq<seq<byte>>)
    requires Reached(s, k, max, delivered) && s <= t
    ensures Reached(t, k, max, delivered)
  {
    forall u | t <= u ensures Frames(u, 0, max) == delivered + Frames(u, k, max) {
      assert s <= u;
    }
  }

  lemma ReachedDrop(s: seq<byte>, k: nat, max: nat, delivered: seq<seq<byte>>)
    requires Reached(s, k, max, delivered) && VerdictAt(s, k, max) == Drop
    ensures Reached(s, k + 1, max, delivered)
  {
    hide VerdictAt;
    forall t | s <= t ensures Frames(t, 0, max) == delivered + Frames(t, k + 1, max) {
      VerdictStable(s, t, k, max);
    }
  }

  lemma ReachedTake(s: seq<byte>, k: nat, max: nat, delivered: seq<seq<byte>>, n: nat)
    requires Reached(s, k, max, delivered) && VerdictAt(s, k, max) == Take(n)
    ensures Reached(s, k + n, max, delivered + [s[k..k + n]])
  {
    hide VerdictAt;
    forall t | s <= t ensures Frames(t, 0, max) == delivered + [s[k..k + n]] + Frames(t, k + n, max) {
      VerdictStable(s, t, k, max);
      assert s[k..k + n] == t[k..k + n];
      assert delivered + ([s[k..k + n]] + Frames(t, k + n, max)) == delivered + [s[k..k + n]] + Frames(t, k + n, max);
    }
  }

  /** What has been delivered is a prefix of the stream's frames; all of them once the parser waits. */
  lemma DeliveredIsPrefix(s: seq<byte>, k: nat, max: nat, delivered: seq<seq<byte>>)
    requires Reached(s, k, max, delivered)
    ensures delivered <= Frames(s, 0, max)
    ensures VerdictAt(s, k, max) == Wait ==> delivered == Frames(s, 0, max)
  {
    hide VerdictAt;
    assert Frames(s, 0, max) == delivered + Frames(s, k, max);
  }

  // ---- frames among garbage ----

  predicate WellFramed(f: seq<byte>, max: nat) {
    && OVERHEAD <= |f| <= max && f[0] == SOF && f[|f| - 1] == EOF
    && FromLe16(f[2..4]) + OVERHEAD == |f|
  }

  function Wire(garbage: seq<seq<byte>>, frames: seq<seq<byte>>): seq<byte>
    requires |garbage| == |frames|
  {
    if frames == [] then [] else garbage[0] + frames[0] + Wire(garbage[1..], frames[1..])
  }

  /** A take at the head of what is left. */
  lemma TakeHead(s: seq<byte>, k: nat, max: nat, f: seq<byte>, rest: seq<byte>)
    requires k <= |s| && s[k..] == f + rest && WellFramed(f, max)
    ensures VerdictAt(s, k, max) == Take(|f|) && s[k..k + |f|] == f && s[k + |f|..] == rest
  {
    var v := s[k..];
    assert forall i :: 0 <= i < |f| ==> s[k + i] == v[i] == f[i];
    assert f[2..4] == [f[2], f[3]];
  }

  /** Bytes other than SOF in front of at least a frame header are skipped. */
  lemma {:induction false} SkipGarbage(s: seq<byte>, k: nat, max: nat, g: seq<byte>, rest: seq<byte>)
    requires k <= |s| && s[k..] == g + rest && SOF !in g && |rest| >= LEN_FIELD_END
    ensures k + |g| <= |s| && s[k + |g|..] == rest
    ensures Frames(s, k, max) == Frames(s, k + |g|, max)
    decreases |g|
  {
    if g != [] {
      assert s[k] == s[k..][0] == g[0];
      assert g[0] in g;
      assert s[k + 1..] == s[k..][1..] == g[1..] + rest;
      SkipGarbage(s, k + 1, max, g[1..], rest);
    }
  }

  lemma {:induction false} FramesOfWireFrom(s: seq<byte>, k: nat, max: nat, garbage: seq<seq<byte>>,
      frames: seq<seq<byte>>, tail: seq<byte>)
    requires |garbage| == |frames| && k <= |s| && s[k..] == Wire(garbage, frames) + tail
    requires forall g :: g in garbage ==> SOF !in g
    requires forall f :: f in frames ==> WellFramed(f, max)
    requires SOF !in tail
    ensures Frames(s, k, max) == frames
    decreases |frames|
  {
    hide VerdictAt;
    if frames == [] {
      FramesOfTail(s, k, max);
    } else {
      var g, f := garbage[0], frames[0];
      var rest := Wire(garbage[1..], frames[1..]) + tail;
      assert s[k..] == g + (f + rest);
      assert g in garbage && f in frames;
      SkipGarbage(s, k, max, g, f + rest);
      TakeHead(s, k + |g|, max, f, rest);
      FramesOfWireFrom(s, k + |g| + |f|, max, garbage[1..], frames[1..], tail);
      assert frames == [f] + frames[1..];
    }
  }

  lemma {:induction false} FramesOfTail(s: seq<byte>, k: nat, max: nat)
    requires k <= |s| && SOF !in s[k..]
    ensures Frames(s, k, max) == []
    decreases |s| - k
  {
    if k + LEN_FIELD_END <= |s| {
      assert s[k] == s[k..][0];
      assert s[k + 1..] == s[k..][1..];
      FramesOfTail(s, k + 1, max);
    }
  }

  /** Well-framed frames separated by garbage without a start byte are delivered exactly, in order. */
  lemma FramesOfWire(garbage: seq<seq<byte>>, frames: seq<seq<byte>>, tail: seq<byte>, max: nat)
    requires |garbage| == |frames|
    requires forall g :: g in garbage ==> SOF !in g
    requires forall f :: f in frames ==> WellFramed(f, max)
    requires SOF !in tail
    ensures Frames(Wire(garbage, frames) + tail, 0, max) == frames
  {
    var s := Wire(garbage, frames) + tail;
    assert s[0..] == s;
    FramesOfWireFrom(s, 0, max, garbage, frames, tail);
  }

  // ---- resynchronisation ----

  /** However the stream goes on, no frame begins at position k. */
  ghost predicate Hopeless(s: seq<byte>, k: nat, max: nat) {
    forall t: seq<byte>, j: nat :: s <= t && k <= j <= |t| ==> !WellFramed(t[k..j], max)
  }

  /** The parser takes exactly the well-framed frame that begins where it stands; it drops a byte exactly if the frame
      header has arrived and no continuation makes it the start of a frame; otherwise it waits. */
  lemma VerdictIff(s: seq<byte>, k: nat, max: nat, n: nat)
    requires k <= |s|
    ensures VerdictAt(s, k, max) == Take(n) <==> k + n <= |s| && WellFramed(s[k..k + n], max)
    ensures VerdictAt(s, k, max) == Drop <==> k + LEN_FIELD_END <= |s| && Hopeless(s, k, max)
  {
    if k + LEN_FIELD_END <= |s| {
      var total := FromLe16([s[k + 2], s[k + 3]]) + OVERHEAD;
      LengthIsFixed(s, k, max, total);
      if VerdictAt(s, k, max) == Wait {
        Completed(s, k, max, total);
      }
    }
    if k + n <= |s| && WellFramed(s[k..k + n], max) {
      TakeHead(s, k, max, s[k..k + n], s[k + n..]);
    }
    match VerdictAt(s, k, max)
    case Wait =>
    case Drop =>
    case Take(m) =>
      TakenIsWellFramed(s, k, max);
  }

  lemma TakenIsWellFramed(s: seq<byte>, k: nat, max: nat)
    requires VerdictAt(s, k, max).Take?
    ensures WellFramed(s[k..k + VerdictAt(s, k, max).n], max)
  {
    var n := VerdictAt(s, k, max).n;
    var f := s[k..k + n];
    assert f[2..4] == [f[2], f[3]] == [s[k + 2], s[k + 3]];
  }

  lemma SameBytes(s: seq<byte>, t: seq<byte>)
    requires s <= t
    ensures forall i :: 0 <= i < |s| ==> t[i] == s[i]
  {}

  /** Once the header has arrived, a frame beginning there can only have the length it states. */
  lemma LengthIsFixed(s: seq<byte>, k: nat, max: nat, total: nat)
    requires k + LEN_FIELD_END <= |s| && total == FromLe16([s[k + 2], s[k + 3]]) + OVERHEAD
    ensures forall t: seq<byte>, j: nat :: s <= t && k <= j <= |t| && WellFramed(t[k..j], max) ==>
              s[k] == SOF && j == k + total && total <= max && (j <= |s| ==> s[j - 1] == EOF)
  {
    forall t: seq<byte>, j: nat | s <= t && k <= j <= |t| && WellFramed(t[k..j], max)
      ensures s[k] == SOF && j == k + total && total <= max && (j <= |s| ==> s[j - 1] == EOF)
    {
      var f := t[k..j];
      SameBytes(s, t);
      assert f[2..4] == [f[2], f[3]] == [t[k + 2], t[k + 3]];
      assert f[0] == t[k] && f[|f| - 1] == t[j - 1];
    }
  }

  /** A frame that is not complete yet can still become one. */
  lemma Completed(s: seq<byte>, k: nat, max: nat, total: nat)
    requires k + LEN_FIELD_END <= |s| < k + total <= k + max && s[k] == SOF
    requires total == FromLe16([s[k + 2], s[k + 3]]) + OVERHEAD
    ensures !Hopeless(s, k, max)
  {
    var t := s + seq(k + total - |s|, _ => EOF);
    var f := t[k..k + total];
    assert f[2..4] == [t[k + 2], t[k + 3]] == [s[k + 2], s[k + 3]];
    assert WellFramed(f, max);
    assert s <= t;
  }

  /** A parser waits only while fewer bytes are unread than the largest frame has. */
  lemma WaitsOnlyWhenShort(s: seq<byte>, k: nat, max: nat)
    requires max >= OVERHEAD && k <= |s| && VerdictAt(s, k, max) == Wait
    ensures |s| - k < max
  {}

  /** Nothing that begins before position p and ends behind it looks like a frame. */
  ghost predicate NoneAcross(s: seq<byte>, k: nat, p: nat, max: nat) {
    forall i: nat, j: nat :: k <= i < p < j <= |s| ==> !WellFramed(s[i..j], max)
  }

  /** Whatever comes before it, start bytes and damaged frames included: a well-framed frame is delivered as soon as a
      buffer's worth of bytes has arrived from its first byte on, unless something else that looks like a frame reaches
      into it; and the parser goes on behind it. */
  lemma {:induction false} FrameRecovered(s: seq<byte>, k: nat, max: nat, p: nat, f: seq<byte>)
    returns (before: seq<seq<byte>>)
    requires k <= p && p + max <= |s| && WellFramed(f, max) && s[p..p + |f|] == f && NoneAcross(s, k, p, max)
    ensures Frames(s, k, max) == before + [f] + Frames(s, p + |f|, max)
    decreases p - k
  {
    hide VerdictAt, WellFramed;
    OverheadFits(f, max);
    if k == p {
      VerdictIff(s, k, max, |f|);
      before := [];
      assert [f] + Frames(s, p + |f|, max) == before + [f] + Frames(s, p + |f|, max);
    } else {
      var v := VerdictAt(s, k, max);
      match v
      case Wait =>
        WaitsOnlyWhenShort(s, k, max);
      case Drop =>
        before := FrameRecovered(s, k + 1, max, p, f);
      case Take(n) =>
        VerdictIff(s, k, max, n);
        var rest := FrameRecovered(s, k + n, max, p, f);
        before := [s[k..k + n]] + rest;
        assert [s[k..k + n]] + (rest + [f] + Frames(s, p + |f|, max)) == before + [f] + Frames(s, p + |f|, max);
    }
  }

  lemma OverheadFits(f: seq<byte>, max: nat)
    requires WellFramed(f, max)
    ensures OVERHEAD <= |f| <= max
  {}

  /** With a frame still to come out of what has arrived, the parser does not wait, whatever arrives meanwhile. */
  lemma NextIsDecided(a: seq<byte>, s: seq<byte>, k: nat, max: nat)
    requires a <= s && Frames(a, k, max) != []
    ensures VerdictAt(s, k, max) == VerdictAt(a, k, max) != Wait && k < |a|
    ensures VerdictAt(s, k, max) == Drop ==> Frames(a, k + 1, max) == Frames(a, k, max)
    ensures VerdictAt(s, k, max).Take? ==>
              var n := VerdictAt(s, k, max).n; k + n <= |a| && Frames(a, k, max)[0] == a[k..k + n] == s[k..k + n]
  {
    assert VerdictAt(a, k, max) != Wait;
    VerdictStable(a, s, k, max);
  }

  /** The host's frames are well framed, so FramesOfWire and FrameRecovered apply to them. */
  lemma HostFramesAreWellFramed(cmd: byte, size: u32, crc: bv32, version: bv32, seqNo: u32, chunk: seq<byte>)
    requires |chunk| + DATA_PREFIX + OVERHEAD <= MAX_FRAME
    ensures WellFramed(CmdFrame(cmd), MAX_FRAME)
    ensures WellFramed(HeaderFrame(size, crc, version), MAX_FRAME)
    ensures WellFramed(DataFrame(seqNo, chunk), MAX_FRAME)
  {
    hide CmdFrame, HeaderFrame, DataFrame, CrcOk;
    CmdFrameFields(cmd);
    HeaderFrameFields(size, crc, version);
    DataFrameFields(seqNo, chunk);
  }
}
