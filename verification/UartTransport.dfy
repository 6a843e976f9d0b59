/** The receive path: the interrupt copies DMA chunks into a ring with free-running 32-bit indices, and the parser
    cuts frames out of it while the interrupt keeps firing. */
module UartTransport {
  import opened Arithmetic
  import opened Bytes
  import opened Protocol
  import opened FrameStream

  const RING_SIZE := 4096
  const RX_CHUNK := 256

  /** An index that wrapped at 2^32 still points at the right cell, and indices still subtract to the distance. */
  lemma WrappedIndex(a: nat, b: nat)
    requires b <= a <= b + RING_SIZE
    ensures (a % U32_MODULUS) % RING_SIZE == a % RING_SIZE
    ensures (a % U32_MODULUS - b % U32_MODULUS) % U32_MODULUS == a - b
    ensures (a % U32_MODULUS + 1) % U32_MODULUS == (a + 1) % U32_MODULUS
  {
    var qa, qb := a / U32_MODULUS, b / U32_MODULUS;
    assert a == qa * U32_MODULUS + a % U32_MODULUS && b == qb * U32_MODULUS + b % U32_MODULUS;
    assert qa == qb || qa == qb + 1;
  }

  /** The bytes accepted and the position when the parser looked. */
  datatype Look = Look(seen: seq<byte>, at: nat)

  /** A look that found too few bytes, fewer than the buffer holds. */
  ghost predicate TooFew(l: Look, max: nat) {
    l.at <= |l.seen| < l.at + max && VerdictAt(l.seen, l.at, max) == Wait
  }

  class UartDma {
    const dmaRx: array<byte>
    const ring: array<byte>
    const max: nat
    var w: u32
    var r: u32

    /** Every byte the ring ever accepted, how many of them were consumed, and the frames handed out. */
    ghost var accepted: seq<byte>
    ghost var consumed: nat
    ghost var delivered: seq<seq<byte>>

    ghost predicate Valid()
      reads this, ring
    {
      && ring.Length == RING_SIZE && dmaRx.Length == RX_CHUNK && ring != dmaRx && max >= OVERHEAD
      && consumed <= |accepted| <= consumed + RING_SIZE
      && w == |accepted| % U32_MODULUS && r == consumed % U32_MODULUS
      && (forall k :: consumed <= k < |accepted| ==> ring[k % RING_SIZE] == accepted[k])
    }

    constructor (max: nat)
      requires max >= OVERHEAD
      ensures Valid() && fresh(ring) && fresh(dmaRx) && this.max == max
      ensures accepted == [] && consumed == 0 && delivered == []
      ensures Reached(accepted, consumed, max, delivered)
    {
      dmaRx := new byte[RX_CHUNK];
      ring := new byte[RING_SIZE];
      this.max := max;
      w, r := 0, 0;
      accepted, consumed, delivered := [], 0, [];
    }

    function Count(): (n: nat)
      requires Valid()
      reads this, ring
      ensures n == |accepted| - consumed
    {
      WrappedIndex(|accepted|, consumed);
      (w - r) % U32_MODULUS
    }

    function Free(): nat
      requires Valid()
      reads this, ring
    {
      RING_SIZE - Count()
    }

    /** All of the chunk is accepted, or none of it; bytes not yet consumed are never touched. */
    method Push(data: seq<byte>) returns (ok: bool)
      requires Valid()
      modifies this`w, this`accepted, ring
      ensures Valid() && (ok <==> |data| <= old(Free()))
      ensures accepted == old(accepted) + if ok then data else []
    {
      if |data| == 0 {
        return true;
      }
      if |data| > Free() {
        return false;
      }
      ghost var was := accepted;
      for i := 0 to |data|
        invariant Valid() && accepted == was + data[..i]
      {
        WrappedIndex(|accepted|, consumed);
        forall k | consumed <= k < |accepted| ensures k % RING_SIZE != |accepted| % RING_SIZE {
          DistinctCells(k, |accepted|, RING_SIZE);
        }
        ring[w % RING_SIZE] := data[i];
        w := (w + 1) % U32_MODULUS;
        accepted := accepted + [data[i]];
      }
      return true;
    }

    /** A DMA chunk has arrived. */
    method OnRxEvent(size: u16)
      requires Valid()
      modifies this`w, this`accepted, ring
      ensures Valid()
      ensures var n := if size > RX_CHUNK then RX_CHUNK else size;
              accepted == old(accepted) + if n <= old(Free()) then old(dmaRx[..n]) else []
    {
      var n := if size > RX_CHUNK then RX_CHUNK else size;
      if n > 0 {
        var pushed := Push(dmaRx[..n]);
      }
    }

    /** Any number of receive interrupts, each with any content in the DMA buffer. */
    method Interrupts()
      requires Valid()
      modifies this`w, this`accepted, ring, dmaRx
      ensures Valid() && old(accepted) <= accepted
    {
      var n: nat :| true;
      for i := 0 to n
        invariant Valid() && old(accepted) <= accepted
      {
        for j := 0 to RX_CHUNK
          invariant Valid() && old(accepted) <= accepted
        {
          dmaRx[j] := *;
        }
        var size: u16 := *;
        OnRxEvent(size);
      }
    }

    // ---- the consumer, with the interrupt firing between any two of its steps ----

    /** The byte at an offset, if it had arrived when the count was taken. */
    method Peek(offset: nat) returns (ok: bool, b: byte)
      requires Valid()
      modifies this`w, this`accepted, ring, dmaRx
      ensures Valid() && old(accepted) <= accepted
      ensures ok <==> consumed + offset < |old(accepted)|
      ensures ok ==> b == accepted[consumed + offset]
    {
      var count := Count();
      Interrupts();
      if offset >= count {
        return false, 0;
      }
      PeekIndex(consumed, offset);
      return true, ring[(r + offset) % U32_MODULUS % RING_SIZE];
    }

    /** Consumes len bytes, or all there were when the count was taken. */
    method Drop(len: nat)
      requires Valid()
      modifies this`w, this`r, this`accepted, this`consumed, ring, dmaRx
      ensures Valid() && old(accepted) <= accepted
      ensures consumed == old(consumed) + if len <= old(Count()) then len else old(Count())
    {
      var available := Count();
      Interrupts();
      var n := if len > available then available else len;
      DropIndex(consumed, n);
      r := (r + n) % U32_MODULUS;
      consumed := consumed + n;
    }

    // ---- the parser ----

    /** Whatever arrives next, the frames handed out so far and those still to come are the stream's frames. */
    ghost predicate InSync()
      requires Valid()
      reads this, ring
    {
      Reached(accepted, consumed, max, delivered)
    }

    /** Takes one byte out of the ring; the interrupt may come before the copy and before the index moves on. */
    method ReadByte() returns (b: byte)
      requires Valid() && consumed < |accepted|
      modifies this`w, this`r, this`accepted, this`consumed, ring, dmaRx
      ensures Valid() && old(accepted) <= accepted && consumed == old(consumed) + 1 && b == old(accepted[consumed])
    {
      Interrupts();
      WrappedIndex(consumed, consumed);
      DropIndex(consumed, 1);
      b := ring[r % RING_SIZE];
      Interrupts();
      r := (r + 1) % U32_MODULUS;
      consumed := consumed + 1;
    }

    /** Takes the n bytes of a frame out of the ring, one by one, while the interrupt keeps firing. */
    method ReadFrame(out: array<byte>, n: nat)
      requires Valid() && n <= out.Length && out != ring && out != dmaRx
      requires consumed + n <= |accepted|
      modifies this`w, this`r, this`accepted, this`consumed, ring, dmaRx, out
      ensures Valid() && old(accepted) <= accepted && consumed == old(consumed) + n
      ensures out[..n] == old(accepted[consumed..consumed + n])
    {
      hide Valid;
      ghost var was, start := accepted, consumed;
      for i := 0 to n
        invariant Valid() && was <= accepted && consumed == start + i && delivered == old(delivered)
        invariant start + n <= |was|
        invariant out[..i] == was[start..start + i]
      {
        var b := ReadByte();
        assert b == was[start + i];
        out[i] := b;
      }
    }

    /** The second half of the parser's look, once the length is known. */
    method InspectEnd(total: nat) returns (v: Verdict)
      requires Valid() && total >= OVERHEAD
      modifies this`w, this`accepted, ring, dmaRx
      ensures Valid() && old(accepted) <= accepted
      ensures v == if consumed + total > |accepted| then Wait
                   else if accepted[consumed + total - 1] != EOF then FrameStream.Drop
                   else Take(total)
    {
      hide Valid;
      Interrupts();
      if Count() < total {
        return Wait;
      }
      Interrupts();
      var ok, eof := Peek(total - 1);
      assert ok;
      return if eof != EOF then FrameStream.Drop else Take(total);
    }

    /** The length of the frame that begins here, once its header has arrived. */
    method InspectLength() returns (total: nat)
      requires Valid() && consumed + LEN_FIELD_END <= |accepted|
      modifies this`w, this`accepted, ring, dmaRx
      ensures Valid() && old(accepted) <= accepted
      ensures total == FromLe16([accepted[consumed + 2], accepted[consumed + 3]]) + OVERHEAD
    {
      hide Valid;
      var ok, lenLo := Peek(2);
      assert ok;
      Interrupts();
      var lenHi;
      ok, lenHi := Peek(3);
      assert ok;
      total := FromLe16([lenLo, lenHi]) + OVERHEAD;
    }

    /** Looks at the ring, with the interrupt firing between any two looks, and decides what to do. */
    method Inspect() returns (v: Verdict)
      requires Valid()
      modifies this`w, this`accepted, ring, dmaRx
      ensures Valid() && old(accepted) <= accepted && v == VerdictAt(accepted, consumed, max)
    {
      hide Valid;
      Interrupts();
      if Count() < LEN_FIELD_END {
        return Wait;
      }
      Interrupts();
      var ok, sof := Peek(0);
      assert ok;
      if sof != SOF {
        return FrameStream.Drop;
      }
      Interrupts();
      var total := InspectLength();
      if total > max {
        return FrameStream.Drop;
      }
      v := InspectEnd(total);
    }

    /** One turn of the parser's loop. It gives the frame's length, or 0 after dropping a byte or finding too few. */
    method ParseTurn(out: array<byte>) returns (n: nat, ghost seen: seq<byte>)
      requires Valid() && InSync() && out.Length >= max && out != ring && out != dmaRx
      modifies this, ring, dmaRx, out
      ensures Valid() && InSync() && old(accepted) <= seen <= accepted && n <= max
      ensures match VerdictAt(seen, old(consumed), max)
              case Wait => n == 0 && consumed == old(consumed) && delivered == old(delivered)
              case Drop => n == 0 && consumed == old(consumed) + 1 && delivered == old(delivered)
              case Take(m) => n == m && consumed == old(consumed) + m && delivered == old(delivered) + [out[..n]]
                              && out[..n] == seen[old(consumed)..old(consumed) + m]
    {
      hide Reached, Frames, VerdictAt;
      ghost var was, start := accepted, consumed;
      var v := Inspect();
      seen := accepted;
      ReachedExtend(was, seen, start, max, delivered);
      match v
      case Wait =>
        return 0, seen;
      case Drop =>
        ReachedDrop(seen, start, max, delivered);
        Interrupts();
        Drop(1);
        ReachedExtend(seen, accepted, start + 1, max, delivered);
        return 0, seen;
      case Take(total) =>
        ReachedTake(seen, start, max, delivered, total);
        ReadFrame(out, total);
        delivered := delivered + [out[..total]];
        ReachedExtend(seen, accepted, consumed, max, delivered);
        return total, seen;
    }

    /** The parser's loop; `budget` is how many turns the clock allows before the timeout. It gives a frame, or 0 when
        the time is up, and then every turn either consumed a byte or found too few, which is fewer than the buffer
        holds. A frame that is complete among the bytes received before the call is given if there are more turns than
        such bytes. */
    method ParseFrame(out: array<byte>, budget: nat) returns (n: nat, ghost starved: seq<Look>)
      requires Valid() && InSync() && out.Length >= max && out != ring && out != dmaRx
      modifies this, ring, dmaRx, out
      ensures Valid() && InSync() && old(accepted) <= accepted && n <= max
      ensures n > 0 ==> delivered == old(delivered) + [out[..n]] && WellFramed(out[..n], max)
      ensures n == 0 ==> delivered == old(delivered) && |starved| + (consumed - old(consumed)) == budget
      ensures forall l :: l in starved ==> old(accepted) <= l.seen <= accepted && old(consumed) <= l.at <= consumed
      ensures forall l :: l in starved ==> TooFew(l, max)
      ensures var frames := Frames(old(accepted), old(consumed), max);
              frames != [] && budget > old(Count()) ==> n > 0 && out[..n] == frames[0]
    {
      hide VerdictAt, Reached, Frames;
      ghost var was, start, frames := accepted, consumed, Frames(accepted, consumed, max);
      var left := budget;
      starved := [];
      while left > 0
        invariant Valid() && InSync() && was <= accepted && delivered == old(delivered)
        invariant start <= consumed && |starved| + (consumed - start) + left == budget
        invariant forall l :: l in starved ==> was <= l.seen <= accepted && start <= l.at <= consumed
        invariant forall l :: l in starved ==> TooFew(l, max)
        invariant frames != [] ==> starved == [] && Frames(was, consumed, max) == frames && consumed <= |was|
      {
        left := left - 1;
        ghost var seen, at := accepted, consumed;
        n, seen := ParseTurn(out);
        if frames != [] {
          NextIsDecided(was, seen, at, max);
        }
        if n > 0 {
          TakenIsWellFramed(seen, at, max);
          return;
        }
        if consumed == at {
          WaitsOnlyWhenShort(seen, at, max);
          starved := starved + [Look(seen, at)];
        }
      }
      n := 0;
    }
  }

  lemma PeekIndex(a: nat, offset: nat)
    requires offset < RING_SIZE
    ensures (a % U32_MODULUS + offset) % U32_MODULUS % RING_SIZE == (a + offset) % RING_SIZE
  {
    DropIndex(a, offset);
    WrappedIndex(a + offset, a);
  }

  lemma DropIndex(a: nat, n: nat)
    ensures (a % U32_MODULUS + n) % U32_MODULUS == (a + n) % U32_MODULUS
  {}
}
