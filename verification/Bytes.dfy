/** Bytes, machine integers, 32-bit words, and the little-endian packing both ends of the link use. */
module Bytes {
  type u8 = x: int | 0 <= x < 0x100
  type u16 = x: int | 0 <= x < 0x1_0000
  type u32 = x: int | 0 <= x < 0x1_0000_0000
  type byte = u8

  const U32_MODULUS := 0x1_0000_0000

  // ---- quantities that are counted with: lengths, sizes, sequence numbers ----

  function Le16(x: u16): (s: seq<byte>)
    ensures |s| == 2
  {
    [x % 256, x / 256]
  }

  function FromLe16(s: seq<byte>): u16
    requires |s| == 2
  {
    s[0] as int + 256 * (s[1] as int)
  }

  function LeU32(x: u32): (s: seq<byte>)
    ensures |s| == 4
  {
    Le16(x % 0x1_0000) + Le16(x / 0x1_0000)
  }

  function FromLeU32(s: seq<byte>): u32
    requires |s| == 4
  {
    FromLe16(s[..2]) + 0x1_0000 * FromLe16(s[2..])
  }

  lemma Le16RoundTrip(x: u16)
    ensures FromLe16(Le16(x)) == x
  {}

  lemma LeU32RoundTrip(x: u32)
    ensures FromLeU32(LeU32(x)) == x
  {
    var lo, hi := Le16(x % 0x1_0000), Le16(x / 0x1_0000);
    assert LeU32(x)[..2] == lo && LeU32(x)[2..] == hi;
    Le16RoundTrip(x % 0x1_0000);
    Le16RoundTrip(x / 0x1_0000);
  }

  lemma Le16Canonical(s: seq<byte>)
    requires |s| == 2
    ensures Le16(FromLe16(s)) == s
  {}

  lemma LeU32Canonical(s: seq<byte>)
    requires |s| == 4
    ensures LeU32(FromLeU32(s)) == s
  {
    var lo, hi := FromLe16(s[..2]), FromLe16(s[2..]);
    assert FromLeU32(s) % 0x1_0000 == lo && FromLeU32(s) / 0x1_0000 == hi;
    Le16Canonical(s[..2]);
    Le16Canonical(s[2..]);
  }

  // ---- quantities that are only combined bitwise, compared and stored: CRCs, versions ----

  function Xor(a: bv32, b: bv32): bv32 { a ^ b }

  function Up(w: bv32): bv32 { w << 8 }

  function Down(w: bv32): bv32 { w >> 8 }

  function LowByte(w: bv32): byte { (w & 0xFF) as int }

  /** The word of value b. It counts up because the verifier knows words-to-integers but not the way back. */
  function Word(b: byte): (w: bv32)
    ensures w < 256 && w as int == b
  {
    if b == 0 then 0 else
      var p := Word(b - 1);
      WordSuccessor(p);
      p + 1
  }

  function Le32(w: bv32): (s: seq<byte>)
    ensures |s| == 4
  {
    [LowByte(w), LowByte(Down(w)), LowByte(Down(Down(w))), LowByte(Down(Down(Down(w))))]
  }

  function FromLe32(s: seq<byte>): bv32
    requires |s| == 4
  {
    Xor(Word(s[0]), Up(Xor(Word(s[1]), Up(Xor(Word(s[2]), Up(Word(s[3])))))))
  }

  lemma WordSuccessor(w: bv32)
    requires w < 255
    ensures (w + 1) as int == w as int + 1
  {}

  lemma SameWord(v: bv32, w: bv32)
    requires v as int == w as int
    ensures v == w
  {
    assert (v as int) as bv32 == v && (w as int) as bv32 == w;
  }

  lemma WordOfLowByte(w: bv32)
    ensures Word(LowByte(w)) == w & 0xFF
  {
    SameWord(Word(LowByte(w)), w & 0xFF);
  }

  lemma LowByteOfWord(b: byte, high: bv32)
    ensures LowByte(Xor(Word(b), Up(high))) == b
  {
    var w := Word(b);
    LowBits(w, high);
    SameWord(Xor(w, Up(high)) & 0xFF, w);
  }

  lemma LowBits(w: bv32, high: bv32)
    requires w < 256
    ensures Xor(w, Up(high)) & 0xFF == w
    ensures high < 0x100_0000 ==> Down(Xor(w, Up(high))) == high
  {}

  lemma SplitWord(w: bv32)
    ensures w == Xor(w & 0xFF, Up(Down(w)))
  {}

  lemma TopByte(w: bv32)
    ensures Down(Down(Down(w))) & 0xFF == Down(Down(Down(w)))
  {}

  lemma Le32RoundTrip(w: bv32)
    ensures FromLe32(Le32(w)) == w
  {
    hide Xor, Up, Down, LowByte, Word;
    var w1 := Down(w);
    var w2 := Down(w1);
    var w3 := Down(w2);
    WordOfLowByte(w); WordOfLowByte(w1); WordOfLowByte(w2); WordOfLowByte(w3);
    SplitWord(w); SplitWord(w1); SplitWord(w2);
    TopByte(w);
  }

  lemma UpBound(b: byte, high: bv32)
    requires high < 0x1_0000
    ensures Xor(Word(b), Up(high)) < 0x100_0000
    ensures high < 0x100 ==> Xor(Word(b), Up(high)) < 0x1_0000
  {
    UpBoundWord(Word(b), high);
  }

  lemma UpBoundWord(w: bv32, high: bv32)
    requires w < 256 && high < 0x1_0000
    ensures Xor(w, Up(high)) < 0x100_0000
    ensures high < 0x100 ==> Xor(w, Up(high)) < 0x1_0000
  {}

  lemma Le32Canonical(s: seq<byte>)
    requires |s| == 4
    ensures Le32(FromLe32(s)) == s
  {
    hide Xor, Up, Down, LowByte;
    var w3 := Word(s[3]);
    var w2 := Xor(Word(s[2]), Up(w3));
    var w1 := Xor(Word(s[1]), Up(w2));
    UpBound(s[2], w3); UpBound(s[1], w2);
    LowBits(Word(s[0]), w1); LowBits(Word(s[1]), w2); LowBits(Word(s[2]), w3);
    LowByteOfWord(s[0], w1); LowByteOfWord(s[1], w2); LowByteOfWord(s[2], w3);
    LowByteOfSmall(s[3]);
  }

  lemma LowByteOfSmall(b: byte)
    ensures LowByte(Word(b)) == b
  {
    var w := Word(b);
    assert w & 0xFF == w;
  }
}
