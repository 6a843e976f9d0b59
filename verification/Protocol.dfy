/** Frames on the serial link:  SOF | TYPE | LEN | PAYLOAD | CRC32 | EOF  (LEN counts the payload only). */
module Protocol {
  import opened Bytes
  import opened Crc32

  const SOF: byte := 0xA5
  const EOF: byte := 0x5A

  const PKT_CMD: byte := 0x01
  const PKT_HEADER: byte := 0x02
  const PKT_DATA: byte := 0x03

  const CMD_START: byte := 0x10
  const CMD_ABORT: byte := 0x11
  const CMD_END: byte := 0x12
  const CMD_QUERY: byte := 0x13
  const CMD_META: byte := 0x14
  const CMD_BOOT: byte := 0x15

  const OVERHEAD := 9
  const DATA_PREFIX := 6
  const MAX_FRAME := 1024

  // ---- what the engine accepts ----

  predicate CommonOk(f: seq<byte>) {
    |f| >= OVERHEAD && f[0] == SOF && f[|f| - 1] == EOF
  }

  predicate CrcOk(f: seq<byte>)
    requires |f| >= OVERHEAD
  {
    FromLe32(f[|f| - 5..|f| - 1]) == Crc(f[..|f| - 5], 0)
  }

  predicate Accepted(f: seq<byte>) {
    CommonOk(f) && CrcOk(f)
  }

  // ---- what the host sends ----

  function Seal(body: seq<byte>): seq<byte> {
    body + Le32(Crc(body, 0)) + [EOF]
  }

  function CmdBody(cmd: byte): (s: seq<byte>)
    ensures |s| == 8
  {
    [SOF, PKT_CMD] + Le16(4) + [cmd, 0, 0, 0]
  }

  function HeaderBody(size: u32, crc: bv32, version: bv32): (s: seq<byte>)
    ensures |s| == 16
  {
    [SOF, PKT_HEADER] + Le16(12) + LeU32(size) + Le32(crc) + Le32(version)
  }

  function DataBody(seqNo: u32, chunk: seq<byte>): (s: seq<byte>)
    requires |chunk| + DATA_PREFIX < 0x1_0000
    ensures |s| == 10 + |chunk|
  {
    [SOF, PKT_DATA] + Le16(DATA_PREFIX + |chunk|) + LeU32(seqNo) + Le16(|chunk|) + chunk
  }

  function CmdFrame(cmd: byte): seq<byte> { Seal(CmdBody(cmd)) }

  function HeaderFrame(size: u32, crc: bv32, version: bv32): seq<byte> { Seal(HeaderBody(size, crc, version)) }

  function DataFrame(seqNo: u32, chunk: seq<byte>): seq<byte>
    requires |chunk| + DATA_PREFIX < 0x1_0000
  {
    Seal(DataBody(seqNo, chunk))
  }

  /** Everything the host seals is accepted, and only its last five bytes are the seal. */
  lemma SealAccepted(body: seq<byte>)
    requires |body| >= 4 && body[0] == SOF
    ensures Accepted(Seal(body)) && |Seal(body)| == |body| + 5 && Seal(body)[..|body|] == body
  {
    hide Crc, Le32, FromLe32;
    var f := Seal(body);
    assert f[|f| - 5..|f| - 1] == Le32(Crc(body, 0)) && f[..|f| - 5] == body;
    Le32RoundTrip(Crc(body, 0));
  }

  /** An accepted frame is the seal of its body: nothing but the host's own encoding passes. */
  lemma AcceptedIsSealed(f: seq<byte>)
    ensures Accepted(f) <==> |f| >= OVERHEAD && f[0] == SOF && f == Seal(f[..|f| - 5])
  {
    hide Crc, Le32, FromLe32;
    if |f| >= OVERHEAD {
      var n := |f| - 5;
      var stored := f[n..n + 4];
      Le32Canonical(stored);
      Le32RoundTrip(Crc(f[..n], 0));
      if Accepted(f) {
        assert f == f[..n] + stored + [f[n + 4]];
      }
      if f == Seal(f[..n]) {
        assert stored == Le32(Crc(f[..n], 0));
      }
    }
  }

  lemma CrcOkIffResidue(f: seq<byte>)
    requires |f| >= OVERHEAD
    ensures CrcOk(f) <==> Feed(ONES, f[..|f| - 1]) == Shift32(ONES)
  {
    hide Crc, Feed, Shift32, FromLe32;
    var n := |f| - 5;
    assert f[..|f| - 1] == f[..n] + f[n..n + 4];
    ResidueIffCrc(f[..n], f[n..n + 4]);
  }

  /** No burst of errors confined to four consecutive bytes before the end marker turns an accepted frame
      into another accepted frame, even where it overlaps the stored checksum. */
  lemma BurstDetected(f: seq<byte>, g: seq<byte>, at: nat)
    requires Accepted(f) && Accepted(g) && |f| == |g| && at + 4 < |f|
    requires forall i :: 0 <= i < |f| && !(at <= i < at + 4) ==> f[i] == g[i]
    ensures f == g
  {
    hide Crc, Feed, Shift32, FromLe32;
    var n := |f| - 1;
    CrcOkIffResidue(f);
    CrcOkIffResidue(g);
    var before, after := f[..at], f[at + 4..n];
    assert before == g[..at] && after == g[at + 4..n];
    assert f[..n] == before + f[at..at + 4] + after;
    assert g[..n] == before + g[at..at + 4] + after;
    WindowDetermined(ONES, before, f[at..at + 4], g[at..at + 4], after);
    assert f == before + f[at..at + 4] + after + [f[n]];
    assert g == before + g[at..at + 4] + after + [g[n]];
  }

  // ---- reading the host's frames back ----

  lemma CmdFrameFields(cmd: byte)
    ensures var f := CmdFrame(cmd); Accepted(f) && |f| == 13 && f[1] == PKT_CMD && f[4] == cmd
    ensures var f := CmdFrame(cmd); FromLe16(f[2..4]) + OVERHEAD == |f|
  {
    hide Crc, Le32, FromLe32;
    SealAccepted(CmdBody(cmd));
    var f := CmdFrame(cmd);
    assert f[..8] == CmdBody(cmd);
    assert f[1] == f[..8][1] && f[4] == f[..8][4] && f[2..4] == f[..8][2..4] == Le16(4);
  }

  lemma HeaderFrameFields(size: u32, crc: bv32, version: bv32)
    ensures var f := HeaderFrame(size, crc, version);
            && Accepted(f) && |f| == 21 && f[1] == PKT_HEADER && FromLe16(f[2..4]) + OVERHEAD == |f|
            && FromLeU32(f[4..8]) == size && FromLe32(f[8..12]) == crc && FromLe32(f[12..16]) == version
  {
    hide Crc, Le32, FromLe32, LeU32, FromLeU32;
    var body := HeaderBody(size, crc, version);
    SealAccepted(body);
    var f := HeaderFrame(size, crc, version);
    assert f[..16] == body && f[1] == body[1] && f[2..4] == body[2..4] == Le16(12);
    assert f[4..8] == body[4..8] == LeU32(size);
    assert f[8..12] == body[8..12] == Le32(crc);
    assert f[12..16] == body[12..16] == Le32(version);
    LeU32RoundTrip(size);
    Le32RoundTrip(crc);
    Le32RoundTrip(version);
  }

  lemma DataFrameFields(seqNo: u32, chunk: seq<byte>)
    requires |chunk| + DATA_PREFIX < 0x1_0000
    ensures var f := DataFrame(seqNo, chunk);
            && Accepted(f) && |f| == |chunk| + DATA_PREFIX + OVERHEAD && f[1] == PKT_DATA
            && FromLe16(f[2..4]) == |chunk| + DATA_PREFIX && FromLeU32(f[4..8]) == seqNo
            && FromLe16(f[8..10]) == |chunk| && f[10..10 + |chunk|] == chunk
  {
    hide Crc, Le32, FromLe32, LeU32, FromLeU32, Le16, FromLe16;
    var body := DataBody(seqNo, chunk);
    SealAccepted(body);
    var f := DataFrame(seqNo, chunk);
    var n := 10 + |chunk|;
    assert f[..n] == body && f[1] == body[1] && f[2..4] == body[2..4] == Le16(DATA_PREFIX + |chunk|);
    assert f[4..8] == body[4..8] == LeU32(seqNo);
    assert f[8..10] == body[8..10] == Le16(|chunk|);
    assert f[10..n] == body[10..n] == chunk;
    LeU32RoundTrip(seqNo);
    Le16RoundTrip(|chunk|);
    Le16RoundTrip(DATA_PREFIX + |chunk|);
  }
}
