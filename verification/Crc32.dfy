/** The CRC-32 of IEEE Std 802.3-2018 (clause 3.2.9), reflected, as the device computes it bit by
    bit and as the host computes it through a table. */
module Crc32 {
  import opened Bytes

  const POLY: bv32 := 0xEDB88320
  const ONES: bv32 := 0xFFFF_FFFF

  predicate Odd(c: bv32) { c & 1 == 1 }

  function Half(c: bv32): bv32 { c >> 1 }

  function PolyIf(b: bool): bv32 { if b then POLY else 0 }

  /** The register after shifting out one bit. */
  function ShiftBit(c: bv32): bv32 {
    Xor(Half(c), PolyIf(Odd(c)))
  }

  function ShiftBits(c: bv32, n: nat): bv32 {
    if n == 0 then c else ShiftBit(ShiftBits(c, n - 1))
  }

  function Shift8(c: bv32): bv32 {
    ShiftBits(c, 8)
  }

  function FeedByte(c: bv32, b: byte): bv32 {
    Shift8(Xor(c, Word(b)))
  }

  /** The register after feeding all of `data` to the register `c`. */
  function Feed(c: bv32, data: seq<byte>): bv32 {
    if data == [] then c else FeedByte(Feed(c, data[..|data| - 1]), data[|data| - 1])
  }

  function Not(w: bv32): bv32 { !w }

  /** The finished checksum: seed and result are complemented, so that one checksum can seed the next. */
  function Crc(data: seq<byte>, seed: bv32): bv32 {
    Not(Feed(Not(seed), data))
  }

  // ---- the device ----

  /** Eight steps of the register; the polynomial is masked in by the negated low bit. */
  method DeviceShift8(c: bv32) returns (r: bv32)
    ensures r == Shift8(c)
  {
    hide Half, Odd, PolyIf, Xor;
    r := c;
    for b := 0 to 8
      invariant r == ShiftBits(c, b)
    {
      var mask: bv32 := 0 - (r & 1);
      MaskIsPolyIf(r);
      r := (r >> 1) ^ (POLY & mask);
    }
  }

  lemma MaskIsPolyIf(r: bv32)
    ensures (r >> 1) ^ (POLY & (0 - (r & 1))) == ShiftBit(r)
  {
    assert r & 1 == 0 || r & 1 == 1;
  }

  method DeviceCrc(data: seq<byte>, seed: bv32) returns (r: bv32)
    ensures r == Crc(data, seed)
  {
    hide Shift8, Xor, Not;
    var crc := Not(seed);
    for i := 0 to |data|
      invariant crc == Feed(Not(seed), data[..i])
    {
      crc := DeviceShift8(Xor(crc, Word(data[i])));
      assert data[..i + 1][..i] == data[..i];
    }
    assert data[..|data|] == data;
    r := Not(crc);
  }

  // ---- the host ----

  ghost predicate IsCrcTable(table: seq<bv32>) {
    |table| == 256 && forall b: byte :: table[b] == Shift8(Word(b))
  }

  method CrcTableInit(table: array<bv32>)
    requires table.Length == 256
    modifies table
    ensures IsCrcTable(table[..])
  {
    hide Half, Odd, PolyIf, Xor, ShiftBit, BranchShiftBit, Word;
    for i := 0 to 256
      invariant forall b: byte :: b < i ==> table[b] == Shift8(Word(b))
    {
      var c := Word(i);
      for bit := 0 to 8
        invariant c == ShiftBits(Word(i), bit)
      {
        c := BranchShiftBit(c);
      }
      table[i] := c;
      assert table[i] == Shift8(Word(i));
    }
  }

  /** One step of the register as the host writes it. */
  function BranchShiftBit(c: bv32): (r: bv32)
    ensures r == ShiftBit(c)
  {
    assert c & 1 == 0 || c & 1 == 1;
    if c & 1 != 0 then POLY ^ (c >> 1) else c >> 1
  }

  /** The table-driven update: the register the device's bit loop reaches on the same bytes. */
  method HostCrcUpdate(table: seq<bv32>, crc: bv32, buf: seq<byte>) returns (c: bv32)
    requires IsCrcTable(table)
    ensures c == Feed(crc, buf)
  {
    hide Shift8, Xor, Word, LowByte, Down, FeedByte;
    c := crc;
    for i := 0 to |buf|
      invariant c == Feed(crc, buf[..i])
    {
      TableStep(c, buf[i]);
      assert buf[..i + 1][..i] == buf[..i];
      var slot := LowByte(Xor(c, Word(buf[i])));
      assert table[slot] == Shift8(Word(slot));
      c := Xor(table[slot], Down(c));
    }
    assert buf[..|buf|] == buf;
  }

  /** The host's checksum of a buffer is the device's checksum from seed 0. */
  method HostCrc(table: seq<bv32>, buf: seq<byte>) returns (r: bv32)
    requires IsCrcTable(table)
    ensures r == Crc(buf, 0)
  {
    hide Xor, Not, Feed;
    var crc := HostCrcUpdate(table, ONES, buf);
    XorOnes(crc);
    NotZero();
    r := Xor(crc, ONES);
  }

  lemma XorOnes(w: bv32)
    ensures Xor(w, ONES) == Not(w)
  {}

  lemma NotZero()
    ensures Not(0) == ONES
  {}

  lemma NotNot(w: bv32)
    ensures Not(Not(w)) == w
  {}

  lemma XorNot(w: bv32)
    ensures Xor(w, Not(w)) == ONES
  {}

  // ---- algebra of the register ----

  lemma XorAssociative(a: bv32, b: bv32, c: bv32)
    ensures Xor(Xor(a, b), c) == Xor(a, Xor(b, c))
  {}

  lemma XorCommutes(a: bv32, b: bv32)
    ensures Xor(a, b) == Xor(b, a)
  {}

  lemma XorCancels(a: bv32, b: bv32)
    ensures Xor(a, 0) == a && Xor(a, a) == 0
    ensures Xor(a, Xor(a, b)) == b
  {}

  lemma XorInterchange(a: bv32, b: bv32, c: bv32, d: bv32)
    ensures Xor(Xor(a, b), Xor(c, d)) == Xor(Xor(a, c), Xor(b, d))
  {
    hide Xor;
    XorAssociative(a, b, Xor(c, d));
    XorAssociative(b, c, d); XorCommutes(b, c); XorAssociative(c, b, d);
    XorAssociative(a, c, Xor(b, d));
  }

  lemma HalfLinear(x: bv32, y: bv32)
    ensures Half(Xor(x, y)) == Xor(Half(x), Half(y))
  {}

  lemma OddLinear(x: bv32, y: bv32)
    ensures Odd(Xor(x, y)) == (Odd(x) != Odd(y))
  {}

  lemma PolyIfLinear(p: bool, q: bool)
    ensures PolyIf(p != q) == Xor(PolyIf(p), PolyIf(q))
  {}

  lemma ShiftBitLinear(x: bv32, y: bv32)
    ensures ShiftBit(Xor(x, y)) == Xor(ShiftBit(x), ShiftBit(y))
  {
    hide Half, Odd, PolyIf, Xor;
    HalfLinear(x, y);
    OddLinear(x, y);
    PolyIfLinear(Odd(x), Odd(y));
    XorInterchange(Half(x), PolyIf(Odd(x)), Half(y), PolyIf(Odd(y)));
  }

  lemma {:induction false} ShiftBitsLinear(x: bv32, y: bv32, n: nat)
    ensures ShiftBits(Xor(x, y), n) == Xor(ShiftBits(x, n), ShiftBits(y, n))
  {
    hide Xor, ShiftBit;
    if n > 0 {
      ShiftBitsLinear(x, y, n - 1);
      ShiftBitLinear(ShiftBits(x, n - 1), ShiftBits(y, n - 1));
    }
  }

  /** Only zero shifts to zero: the polynomial's top bit reveals the bit that was shifted out. */
  lemma ShiftBitKernel(x: bv32)
    requires ShiftBit(x) == 0
    ensures x == 0
  {}

  lemma {:induction false} ShiftBitsKernel(x: bv32, n: nat)
    requires ShiftBits(x, n) == 0
    ensures x == 0
  {
    hide ShiftBit;
    if n > 0 {
      ShiftBitKernel(ShiftBits(x, n - 1));
      ShiftBitsKernel(x, n - 1);
    }
  }

  lemma XorZeroMeansEqual(x: bv32, y: bv32)
    requires Xor(x, y) == 0
    ensures x == y
  {}

  lemma ShiftBitsInjective(x: bv32, y: bv32, n: nat)
    requires ShiftBits(x, n) == ShiftBits(y, n)
    ensures x == y
  {
    hide Xor, ShiftBit;
    ShiftBitsLinear(x, y, n);
    XorCancels(ShiftBits(x, n), 0);
    ShiftBitsKernel(Xor(x, y), n);
    XorZeroMeansEqual(x, y);
  }

  // ---- the table step ----

  lemma ShiftBitOfEven(c: bv32)
    requires !Odd(c)
    ensures ShiftBit(c) == Half(c)
  {}

  lemma HalvesOfUp(w: bv32)
    requires w < 0x100_0000
    ensures var u := Up(w);
            && Half(Half(Half(Half(Half(Half(Half(Half(u)))))))) == w
            && !Odd(u) && !Odd(Half(u)) && !Odd(Half(Half(u))) && !Odd(Half(Half(Half(u))))
            && !Odd(Half(Half(Half(Half(u))))) && !Odd(Half(Half(Half(Half(Half(u))))))
            && !Odd(Half(Half(Half(Half(Half(Half(u)))))))
            && !Odd(Half(Half(Half(Half(Half(Half(Half(u))))))))
  {}

  /** A register whose low byte is clear is only moved down. */
  lemma Shift8OfUp(w: bv32)
    requires w < 0x100_0000
    ensures Shift8(Up(w)) == w
  {
    hide Up, Half, Odd, PolyIf, Xor, ShiftBit;
    HalvesOfUp(w);
    var u0 := Up(w);     ShiftBitOfEven(u0);
    var u1 := Half(u0);  ShiftBitOfEven(u1);
    var u2 := Half(u1);  ShiftBitOfEven(u2);
    var u3 := Half(u2);  ShiftBitOfEven(u3);
    var u4 := Half(u3);  ShiftBitOfEven(u4);
    var u5 := Half(u4);  ShiftBitOfEven(u5);
    var u6 := Half(u5);  ShiftBitOfEven(u6);
    var u7 := Half(u6);  ShiftBitOfEven(u7);
    assert ShiftBits(u0, 1) == u1;
    assert ShiftBits(u0, 2) == u2;
    assert ShiftBits(u0, 3) == u3;
    assert ShiftBits(u0, 4) == u4;
    assert ShiftBits(u0, 5) == u5;
    assert ShiftBits(u0, 6) == u6;
    assert ShiftBits(u0, 7) == u7;
  }

  lemma DownIsSmall(w: bv32)
    ensures Down(w) < 0x100_0000
  {}

  lemma DownOfXorByte(c: bv32, w: bv32)
    requires w < 256
    ensures Down(Xor(c, w)) == Down(c)
  {}

  /** One table look-up replaces eight bit steps. */
  lemma TableStep(c: bv32, b: byte)
    ensures FeedByte(c, b) == Xor(Shift8(Word(LowByte(Xor(c, Word(b))))), Down(c))
  {
    hide Up, Down, Xor, LowByte, Word, ShiftBits;
    var x := Xor(c, Word(b));
    SplitWord(x);
    WordOfLowByte(x);
    DownOfXorByte(c, Word(b));
    DownIsSmall(c);
    ShiftBitsLinear(Word(LowByte(x)), Up(Down(x)), 8);
    Shift8OfUp(Down(c));
  }

  // ---- chaining ----

  lemma {:induction false} FeedAppend(c: bv32, a: seq<byte>, b: seq<byte>)
    ensures Feed(c, a + b) == Feed(Feed(c, a), b)
  {
    hide FeedByte;
    if b == [] {
      assert a + b == a;
    } else {
      var n := |b| - 1;
      assert (a + b)[..|a + b| - 1] == a + b[..n];
      FeedAppend(c, a, b[..n]);
    }
  }

  /** A checksum continues where the previous one stopped: checking an image in pieces is
      checking it whole. */
  lemma CrcChains(a: seq<byte>, b: seq<byte>, seed: bv32)
    ensures Crc(a + b, seed) == Crc(b, Crc(a, seed))
  {
    hide Not, Feed;
    FeedAppend(Not(seed), a, b);
    NotNot(Feed(Not(seed), a));
  }

  lemma XorRightInjective(x: bv32, y: bv32, w: bv32)
    requires Xor(x, w) == Xor(y, w)
    ensures x == y
  {
    hide Xor;
    XorCommutes(x, w); XorCommutes(y, w);
    XorCancels(w, x); XorCancels(w, y);
  }

  lemma {:induction false} FeedInjective(x: bv32, y: bv32, data: seq<byte>)
    requires Feed(x, data) == Feed(y, data)
    ensures x == y
  {
    hide Xor, Word, ShiftBits;
    if data != [] {
      var n := |data| - 1;
      var fx, fy := Feed(x, data[..n]), Feed(y, data[..n]);
      ShiftBitsInjective(Xor(fx, Word(data[n])), Xor(fy, Word(data[n])), 8);
      XorRightInjective(fx, fy, Word(data[n]));
      FeedInjective(x, y, data[..n]);
    }
  }

  // ---- words and the constant residue ----

  function Shift32(c: bv32): bv32 {
    Shift8(Shift8(Shift8(Shift8(c))))
  }

  lemma Shift32Injective(x: bv32, y: bv32)
    requires Shift32(x) == Shift32(y)
    ensures x == y
  {
    hide ShiftBits;
    ShiftBitsInjective(Shift8(Shift8(Shift8(x))), Shift8(Shift8(Shift8(y))), 8);
    ShiftBitsInjective(Shift8(Shift8(x)), Shift8(Shift8(y)), 8);
    ShiftBitsInjective(Shift8(x), Shift8(y), 8);
    ShiftBitsInjective(x, y, 8);
  }

  /** Feeding one byte of a word and keeping the rest of the word waiting above it. */
  lemma FeedLowByte(c: bv32, b: byte, rest: bv32)
    requires rest < 0x100_0000
    ensures Shift8(Xor(c, Xor(Word(b), Up(rest)))) == Xor(FeedByte(c, b), rest)
  {
    hide Xor, Word, Up, ShiftBits;
    XorAssociative(c, Word(b), Up(rest));
    ShiftBitsLinear(Xor(c, Word(b)), Up(rest), 8);
    Shift8OfUp(rest);
  }

  /** Feeding four bytes is feeding one little-endian word. */
  lemma FeedWord(c: bv32, s: seq<byte>)
    requires |s| == 4
    ensures Feed(c, s) == Shift32(Xor(c, FromLe32(s)))
  {
    hide Xor, Up, FeedByte, Shift8;
    var w3 := Word(s[3]);
    var w2 := Xor(Word(s[2]), Up(w3));
    var w1 := Xor(Word(s[1]), Up(w2));
    UpBound(s[2], w3); UpBound(s[1], w2);
    var c0 := FeedByte(c, s[0]);
    var c1 := FeedByte(c0, s[1]);
    var c2 := FeedByte(c1, s[2]);
    FeedLowByte(c, s[0], w1);
    FeedLowByte(c0, s[1], w2);
    FeedLowByte(c1, s[2], w3);
    LastByte(c2, s[3]);
    FeedFour(c, s);
  }

  lemma LastByte(c: bv32, b: byte)
    ensures Shift8(Xor(c, Word(b))) == FeedByte(c, b)
  {}

  lemma FeedFour(c: bv32, s: seq<byte>)
    requires |s| == 4
    ensures Feed(c, s) == FeedByte(FeedByte(FeedByte(FeedByte(c, s[0]), s[1]), s[2]), s[3])
  {
    hide FeedByte;
    assert s[..3][..2] == s[..2] && s[..2][..1] == s[..1] && s[..1][..0] == [];
    assert Feed(c, s[..1]) == FeedByte(c, s[0]);
    assert Feed(c, s[..2]) == FeedByte(Feed(c, s[..1]), s[1]);
    assert Feed(c, s[..3]) == FeedByte(Feed(c, s[..2]), s[2]);
  }

  /** Appending the little-endian checksum leaves the same register behind every message, and no
      other four bytes do. */
  lemma ResidueIffCrc(body: seq<byte>, stored: seq<byte>)
    requires |stored| == 4
    ensures Feed(ONES, body + stored) == Shift32(ONES) <==> FromLe32(stored) == Crc(body, 0)
  {
    hide Xor, Not, Feed, FromLe32, Shift32;
    var r := Feed(ONES, body);
    var w := FromLe32(stored);
    FeedAppend(ONES, body, stored);
    FeedWord(r, stored);
    XorNot(r);
    NotZero();
    if Shift32(Xor(r, w)) == Shift32(ONES) {
      Shift32Injective(Xor(r, w), ONES);
      XorCancels(r, w);
      XorCancels(r, Not(r));
    }
  }

  /** Two messages that agree outside four consecutive bytes and leave the same register agree everywhere. */
  lemma WindowDetermined(c: bv32, before: seq<byte>, u: seq<byte>, v: seq<byte>, after: seq<byte>)
    requires |u| == |v| == 4
    requires Feed(c, before + u + after) == Feed(c, before + v + after)
    ensures u == v
  {
    hide Xor, Feed, FromLe32, Shift32;
    var r := Feed(c, before);
    FeedAppend(c, before + u, after); FeedAppend(c, before, u);
    FeedAppend(c, before + v, after); FeedAppend(c, before, v);
    FeedInjective(Feed(r, u), Feed(r, v), after);
    FeedWord(r, u); FeedWord(r, v);
    Shift32Injective(Xor(r, FromLe32(u)), Xor(r, FromLe32(v)));
    XorCancels(r, FromLe32(u)); XorCancels(r, FromLe32(v));
    Le32Canonical(u); Le32Canonical(v);
  }

  // ---- the check value ----

  lemma FeedOne(c: bv32, data: seq<byte>, b: byte, w: bv32)
    requires w as int == b
    ensures Feed(c, data + [b]) == Shift8(Xor(Feed(c, data), w))
  {
    hide Shift8, Xor;
    SameWord(Word(b), w);
    assert (data + [b])[..|data|] == data;
  }

  function UnrolledShift8(c: bv32): bv32 {
    ShiftBit(ShiftBit(ShiftBit(ShiftBit(ShiftBit(ShiftBit(ShiftBit(ShiftBit(c))))))))
  }

  lemma UnrolledIsShift8(c: bv32)
    ensures UnrolledShift8(c) == Shift8(c)
  {
    hide ShiftBit;
    assert ShiftBits(c, 1) == ShiftBit(c);
    assert ShiftBits(c, 2) == ShiftBit(ShiftBits(c, 1));
    assert ShiftBits(c, 3) == ShiftBit(ShiftBits(c, 2));
    assert ShiftBits(c, 4) == ShiftBit(ShiftBits(c, 3));
    assert ShiftBits(c, 5) == ShiftBit(ShiftBits(c, 4));
    assert ShiftBits(c, 6) == ShiftBit(ShiftBits(c, 5));
    assert ShiftBits(c, 7) == ShiftBit(ShiftBits(c, 6));
  }

  /** The registers between the digits. */
  lemma DigitShifts()
    ensures UnrolledShift8(0xFFFF_FFCE) == 0x7C23_1048
    ensures UnrolledShift8(0x7C23_107A) == 0xB0AC_BB32
    ensures UnrolledShift8(0xB0AC_BB01) == 0x77B7_9C2D
    ensures UnrolledShift8(0x77B7_9C19) == 0x641C_1F5C
    ensures UnrolledShift8(0x641C_1F69) == 0x340A_C5E3
    ensures UnrolledShift8(0x340A_C5D5) == 0xF68D_2C9E
    ensures UnrolledShift8(0xF68D_2CA9) == 0xAFFC_9660
    ensures UnrolledShift8(0xAFFC_9658) == 0x651F_2550
    ensures UnrolledShift8(0x651F_2569) == 0x340B_C6D9
  {}

  lemma {:induction false} FeedDigits(c: bv32, digits: seq<byte>, words: seq<bv32>, registers: seq<bv32>)
    requires |words| == |digits| && |registers| == |digits| + 1 && registers[0] == c
    requires forall i :: 0 <= i < |digits| ==> words[i] as int == digits[i]
    requires forall i :: 0 <= i < |digits| ==> registers[i + 1] == Shift8(Xor(registers[i], words[i]))
    ensures Feed(c, digits) == registers[|digits|]
  {
    hide Shift8, Xor;
    if digits != [] {
      var n := |digits| - 1;
      FeedDigits(c, digits[..n], words[..n], registers[..n + 1]);
      FeedOne(c, digits[..n], digits[n], words[n]);
      assert digits == digits[..n] + [digits[n]];
    }
  }

  /** The checksum of the nine digits "123456789" is the published check value: polynomial, bit order, start value and
      final complement are those of the standard. */
  lemma CheckValue()
    ensures Crc([0x31, 0x32, 0x33, 0x34, 0x35, 0x36, 0x37, 0x38, 0x39], 0) == 0xCBF4_3926
  {
    DigitShifts();
    hide Shift8, Feed, UnrolledShift8;
    var words: seq<bv32> := [0x31, 0x32, 0x33, 0x34, 0x35, 0x36, 0x37, 0x38, 0x39];
    var registers: seq<bv32> := [0xFFFF_FFFF, 0x7C23_1048, 0xB0AC_BB32, 0x77B7_9C2D, 0x641C_1F5C, 0x340A_C5E3,
      0xF68D_2C9E, 0xAFFC_9660, 0x651F_2550, 0x340B_C6D9];
    forall i | 0 <= i < 9 ensures registers[i + 1] == Shift8(Xor(registers[i], words[i])) {
      UnrolledIsShift8(Xor(registers[i], words[i]));
    }
    FeedDigits(0xFFFF_FFFF, [0x31, 0x32, 0x33, 0x34, 0x35, 0x36, 0x37, 0x38, 0x39], words, registers);
  }
}
