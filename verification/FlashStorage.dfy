/** Flash memory in one or two banks of pages, and the storage driver that erases and programs one region of it. */
module FlashStorage {
  import opened Arithmetic
  import opened Bytes
  import opened Sequences

  const ERASED: byte := 0xFF
  const DOUBLEWORD := 8

  function AlignUp(size: nat, align: nat): nat
    requires align > 0
  {
    (size + align - 1) / align * align
  }

  ghost predicate SameOutside(a: seq<byte>, b: seq<byte>, lo: int, hi: int) {
    |a| == |b| && forall i :: 0 <= i < |a| && !(lo <= i < hi) ==> a[i] == b[i]
  }

  ghost predicate AllErased(s: seq<byte>, lo: int, hi: int) {
    0 <= lo && hi <= |s| && forall i :: lo <= i < hi ==> s[i] == ERASED
  }

  ghost predicate Holds(s: seq<byte>, lo: int, data: seq<byte>) {
    0 <= lo && lo + |data| <= |s| && forall i :: 0 <= i < |data| ==> s[lo + i] == data[i]
  }

  /** The data followed by erased bytes up to the next doubleword. */
  function Padded(data: seq<byte>): (s: seq<byte>)
    ensures |s| == AlignUp(|data|, DOUBLEWORD)
  {
    data + seq(AlignUp(|data|, DOUBLEWORD) - |data|, _ => ERASED)
  }

  /** One partition of the flash, with the geometry its driver was configured with. */
  datatype Region = Region(base: nat, size: nat, pageSize: nat, flashBase: nat, bankSize: nat, bank1: nat, bank2: nat) {
    predicate RangeValid(offset: nat, len: nat) {
      offset <= size && len <= size - offset
    }

    function BankOf(addr: nat): nat {
      if bank2 == 0 || bankSize == 0 then bank1
      else if addr < flashBase + bankSize then bank1 else bank2
    }

    function PageInBank(addr: nat): nat
      requires pageSize > 0
      requires addr >= if BankOf(addr) == bank1 then flashBase else flashBase + bankSize
    {
      var bankBase := if BankOf(addr) == bank1 then flashBase else flashBase + bankSize;
      (addr - bankBase) / pageSize
    }
  }

  /** The hardware. Every primitive may fail at any point unless `reliable`; a failed erase or program
      leaves arbitrary bytes in the cells it was working on. */
  class Flash {
    const base: nat
    const pageSize: nat
    const bankPages: nat
    const twoBanks: bool
    const reliable: bool
    const mem: array<byte>

    /** Unlocks minus locks. */
    ghost var depth: int
    /** How often a doubleword was programmed that was not erased. */
    ghost var overwrites: nat

    ghost predicate Valid()
    {
      pageSize > 0 && pageSize % DOUBLEWORD == 0 && bankPages > 0 && mem.Length == TimesNat(TotalPages(), pageSize)
    }

    function BankSize(): nat { TimesNat(bankPages, pageSize) }

    function TotalPages(): nat { if twoBanks then 2 * bankPages else bankPages }

    constructor (base: nat, pageSize: nat, bankPages: nat, twoBanks: bool, reliable: bool)
      requires pageSize > 0 && pageSize % DOUBLEWORD == 0 && bankPages > 0
      ensures Valid() && fresh(mem) && depth == 0 && overwrites == 0
      ensures this.base == base && this.pageSize == pageSize && this.bankPages == bankPages
      ensures this.twoBanks == twoBanks && this.reliable == reliable
    {
      this.base, this.pageSize, this.bankPages := base, pageSize, bankPages;
      this.twoBanks, this.reliable := twoBanks, reliable;
      mem := new byte[TimesNat(if twoBanks then 2 * bankPages else bankPages, pageSize)];
      depth, overwrites := 0, 0;
    }

    method Unlock() returns (ok: bool)
      modifies this`depth
      ensures depth == old(depth) + if ok then 1 else 0
      ensures reliable ==> ok
    {
      ok := *;
      if reliable { ok := true; }
      if ok { depth := depth + 1; }
    }

    method Lock()
      modifies this`depth
      ensures depth == old(depth) - 1
    {
      depth := depth - 1;
    }

    method Garble(lo: nat, hi: nat)
      requires lo <= hi <= mem.Length
      modifies mem
      ensures SameOutside(old(mem[..]), mem[..], lo, hi)
    {
      for i := lo to hi
        invariant SameOutside(old(mem[..]), mem[..], lo, hi)
      {
        mem[i] := *;
      }
    }

    /** The address, as an index of mem, at which a page begins. */
    function PageStart(second: bool, page: nat): nat {
      TimesNat((if second then bankPages else 0) + page, pageSize)
    }

    method ErasePages(second: bool, first: nat, count: nat) returns (ok: bool)
      requires Valid() && first + count <= bankPages && (second ==> twoBanks)
      modifies mem
      ensures SameOutside(old(mem[..]), mem[..], PageStart(second, first), PageStart(second, first + count))
      ensures ok ==> AllErased(mem[..], PageStart(second, first), PageStart(second, first + count))
      ensures reliable ==> ok
    {
      hide PageStart, Times;
      ghost var start := PageStart(second, first);
      PageOrder(second, first, first + count);
      for page := first to first + count
        invariant start <= PageStart(second, page) <= mem.Length
        invariant SameOutside(old(mem[..]), mem[..], start, PageStart(second, page))
        invariant AllErased(mem[..], start, PageStart(second, page))
      {
        PageOrder(second, first, page);
        PageOrder(second, page, page + 1);
        PageOrder(second, page + 1, first + count);
        var lo, hi := PageStart(second, page), PageStart(second, page + 1);
        var fails: bool := *;
        if fails && !reliable {
          Garble(lo, hi);
          return false;
        }
        forall i | lo <= i < hi {
          mem[i] := ERASED;
        }
      }
      return true;
    }

    lemma PageOrder(second: bool, p: nat, q: nat)
      requires Valid() && p <= q <= bankPages && (second ==> twoBanks)
      ensures PageStart(second, p) <= PageStart(second, q) <= mem.Length
      ensures p < q ==> PageStart(second, p) + pageSize <= PageStart(second, q)
    {
      hide Times;
      var b := if second then bankPages else 0;
      TimesOrder(b + p, b + q, pageSize);
      TimesOrder(b + q, TotalPages(), pageSize);
      TimesOrder(b + p + 1, b + q, pageSize);
      TimesSum(b + p, 1, pageSize);
      TimesOne(pageSize);
    }

    method ProgramDoubleword(addr: nat, value: seq<byte>) returns (ok: bool)
      requires |value| == DOUBLEWORD && addr % DOUBLEWORD == 0 && addr + DOUBLEWORD <= mem.Length
      modifies mem, this`overwrites
      ensures SameOutside(old(mem[..]), mem[..], addr, addr + DOUBLEWORD)
      ensures ok ==> Holds(mem[..], addr, value)
      ensures old(AllErased(mem[..], addr, addr + DOUBLEWORD)) ==> overwrites == old(overwrites) && (reliable ==> ok)
      ensures !old(AllErased(mem[..], addr, addr + DOUBLEWORD)) ==> !ok && overwrites == old(overwrites) + 1
    {
      if exists i | addr <= i < addr + DOUBLEWORD :: mem[i] != ERASED {
        overwrites := overwrites + 1;
        return false;
      }
      var fails: bool := *;
      if fails && !reliable {
        Garble(addr, addr + DOUBLEWORD);
        return false;
      }
      forall i | 0 <= i < DOUBLEWORD {
        mem[addr + i] := value[i];
      }
      assert Holds(mem[..], addr, value);
      return true;
    }
  }

  /** The region lies on whole pages of this flash, and its driver knows the flash's geometry. */
  ghost predicate Fits(r: Region, flash: Flash) {
    && flash.Valid()
    && r.pageSize == flash.pageSize && r.flashBase == flash.base && r.bank1 != 0 && r.bank1 != r.bank2
    && (if flash.twoBanks then r.bankSize == flash.BankSize() && r.bank2 != 0 else r.bank2 == 0 || r.bankSize == 0)
    && flash.base % r.pageSize == 0 && r.base % r.pageSize == 0 && r.size % r.pageSize == 0
    && flash.base <= r.base && r.base + r.size <= flash.base + flash.mem.Length
  }

  /** Where in the flash's memory an offset of the region lies. */
  ghost function At(r: Region, flash: Flash, offset: nat): nat
    requires Fits(r, flash)
  {
    r.base + offset - flash.base
  }

  ghost function Content(r: Region, flash: Flash): (s: seq<byte>)
    reads flash.mem
    requires Fits(r, flash)
    ensures |s| == r.size
  {
    flash.mem[At(r, flash, 0)..At(r, flash, 0) + r.size]
  }

  twostate predicate OthersUntouched(r: Region, flash: Flash)
    requires Fits(r, flash)
    reads flash.mem
  {
    SameOutside(old(flash.mem[..]), flash.mem[..], At(r, flash, 0), At(r, flash, 0) + r.size)
  }

  predicate CanErase(r: Region, offset: nat, size: nat)
    requires r.pageSize > 0
  {
    size > 0 && r.RangeValid(offset, size) && offset % r.pageSize == 0
  }

  predicate CanWrite(r: Region, offset: nat, len: nat) {
    len > 0 && r.RangeValid(offset, len) && offset % DOUBLEWORD == 0
  }

  /** A change inside part of a region, seen from the region. */
  lemma Localize(r: Region, lo: nat, a: seq<byte>, b: seq<byte>, offset: nat, n: nat, data: seq<byte>)
    requires offset + n <= r.size && lo + r.size <= |a|
    requires SameOutside(a, b, lo + offset, lo + offset + n)
    ensures SameOutside(a, b, lo, lo + r.size)
    ensures SameOutside(a[lo..lo + r.size], b[lo..lo + r.size], offset, offset + n)
    ensures AllErased(a, lo + offset, lo + offset + n) <==> AllErased(a[lo..lo + r.size], offset, offset + n)
    ensures AllErased(b, lo + offset, lo + offset + n) <==> AllErased(b[lo..lo + r.size], offset, offset + n)
    ensures |data| == n ==> (Holds(b, lo + offset, data) <==> Holds(b[lo..lo + r.size], offset, data))
  {
    var v, w := a[lo..lo + r.size], b[lo..lo + r.size];
    if AllErased(v, offset, offset + n) {
      forall i | lo + offset <= i < lo + offset + n ensures a[i] == ERASED { assert v[i - lo] == ERASED; }
    }
    if AllErased(w, offset, offset + n) {
      forall i | lo + offset <= i < lo + offset + n ensures b[i] == ERASED { assert w[i - lo] == ERASED; }
    }
    if |data| == n && Holds(b, lo + offset, data) {
      forall i | 0 <= i < n ensures w[offset + i] == data[i] { assert b[lo + offset + i] == data[i]; }
    }
    if |data| == n && Holds(w, offset, data) {
      forall i | 0 <= i < n ensures b[lo + offset + i] == data[i] { assert w[offset + i] == data[i]; }
    }
  }

  /** Erases the pages that cover [offset, offset + size), one call per bank. */
  method Erase(flash: Flash, r: Region, offset: nat, size: nat) returns (ok: bool)
    requires Fits(r, flash)
    modifies flash`depth, flash.mem
    ensures flash.depth == old(flash.depth) && OthersUntouched(r, flash)
    ensures !CanErase(r, offset, size) ==> !ok && Content(r, flash) == old(Content(r, flash))
    ensures CanErase(r, offset, size) ==>
              var n := AlignUp(size, r.pageSize);
              && offset + n <= r.size
              && SameOutside(old(Content(r, flash)), Content(r, flash), offset, offset + n)
              && (ok ==> AllErased(Content(r, flash), offset, offset + n))
              && (flash.reliable ==> ok)
  {
    hide AlignUp, SameOutside, AllErased;
    ghost var before, lo := flash.mem[..], At(r, flash, 0);
    Unchanged(before, lo, lo + r.size, Content(r, flash), offset, offset + AlignUp(size, r.pageSize));
    if size == 0 || !r.RangeValid(offset, size) {
      return false;
    }
    var alignedSize := AlignUp(size, r.pageSize);
    var addr := r.base + offset;
    AddressAligned(r, offset, size);
    if addr % r.pageSize != 0 || alignedSize % r.pageSize != 0 {
      return false;
    }
    ghost var a, k := Pages(flash, r, offset, size);
    ok := EraseAligned(flash, r, addr, alignedSize, a, k);
    Localize(r, lo, before, flash.mem[..], offset, alignedSize, []);
  }

  lemma AddressAligned(r: Region, offset: nat, size: nat)
    requires r.pageSize > 0 && r.base % r.pageSize == 0
    ensures (r.base + offset) % r.pageSize == 0 <==> offset % r.pageSize == 0
    ensures AlignUp(size, r.pageSize) % r.pageSize == 0
  {
    SumMultiple(r.base, offset, r.pageSize);
    AlignUpIsTimes(size, r.pageSize);
  }

  lemma Unchanged(s: seq<byte>, lo: int, hi: int, t: seq<byte>, i: int, j: int)
    ensures SameOutside(s, s, lo, hi) && SameOutside(t, t, i, j)
  {}

  /** The driver's erase once the range is known to be whole pages: one call per bank, and the lock on every way out. */
  method EraseAligned(flash: Flash, r: Region, addr: nat, alignedSize: nat, ghost a: nat, ghost k: nat)
    returns (ok: bool)
    requires Fits(r, flash) && flash.base <= addr && InPages(flash, addr - flash.base, alignedSize, a, k)
    modifies flash`depth, flash.mem
    ensures flash.depth == old(flash.depth)
    ensures var lo := addr - flash.base;
            && SameOutside(old(flash.mem[..]), flash.mem[..], lo, lo + alignedSize)
            && (ok ==> AllErased(flash.mem[..], lo, lo + alignedSize))
            && (flash.reliable ==> ok)
  {
    hide Times, TimesNat;
    var end := addr + alignedSize - 1;
    PageAt(flash, r, a, 0);
    LastPage(flash, r, a + k);
    var startBank, endBank := r.BankOf(addr), r.BankOf(end);

    var unlocked := flash.Unlock();
    if !unlocked {
      return false;
    }
    if startBank == endBank {
      var first, last := r.PageInBank(addr), r.PageInBank(end);
      ok := flash.ErasePages(startBank == r.bank2, first, last - first + 1);
    } else {
      if r.bank2 == 0 || r.bankSize == 0 {
        assert false;
      }
      LastPage(flash, r, flash.bankPages);
      PageAt(flash, r, flash.bankPages, 0);
      var bank1End := r.flashBase + r.bankSize - 1;
      var first, last := r.PageInBank(addr), r.PageInBank(bank1End);
      ok := flash.ErasePages(false, first, last - first + 1);
      if ok {
        var bank2Base := r.flashBase + r.bankSize;
        first, last := r.PageInBank(bank2Base), r.PageInBank(end);
        ok := flash.ErasePages(true, first, last - first + 1);
      }
    }
    flash.Lock();
  }

  /** The n bytes at lo are the k pages from page a on, pages being numbered through both banks. */
  ghost predicate InPages(flash: Flash, lo: int, n: int, a: nat, k: nat) {
    && k > 0 && a + k <= flash.TotalPages()
    && lo == TimesNat(a, flash.pageSize) && lo + n == TimesNat(a + k, flash.pageSize) && n > 0
  }

  /** Programs data at an offset, doubleword by doubleword, filling the last one with erased bytes. */
  method Write(flash: Flash, r: Region, offset: nat, data: seq<byte>) returns (ok: bool)
    requires Fits(r, flash)
    modifies flash`depth, flash`overwrites, flash.mem
    ensures flash.depth == old(flash.depth) && OthersUntouched(r, flash)
    ensures !CanWrite(r, offset, |data|) ==>
              !ok && Content(r, flash) == old(Content(r, flash)) && flash.overwrites == old(flash.overwrites)
    ensures CanWrite(r, offset, |data|) ==>
              var n := AlignUp(|data|, DOUBLEWORD);
              && offset + n <= r.size
              && SameOutside(old(Content(r, flash)), Content(r, flash), offset, offset + n)
              && (ok ==> Holds(Content(r, flash), offset, Padded(data)))
              && (ok ==> AllErased(old(Content(r, flash)), offset, offset + n))
              && (AllErased(old(Content(r, flash)), offset, offset + n) ==>
                    flash.overwrites == old(flash.overwrites) && (flash.reliable ==> ok))
  {
    hide SameOutside, AllErased, Holds, Padded, AlignUp, Fits;
    var len := |data|;
    Unchanged(flash.mem[..], At(r, flash, 0), At(r, flash, 0) + r.size, Content(r, flash), offset,
      offset + AlignUp(|data|, DOUBLEWORD));
    if len == 0 || !r.RangeValid(offset, len) {
      return false;
    }
    var addr := r.base + offset;
    RegionAligned(flash, r);
    DoublewordAddress(r.base, offset, flash.base);
    PaddingFits(|data|, r.size - offset);
    ghost var before, lo := flash.mem[..], At(r, flash, 0);
    var unlocked := flash.Unlock();
    if !unlocked {
      return false;
    }
    // The driver repeats this test before every doubleword; addresses advance by whole doublewords.
    if addr % DOUBLEWORD != 0 {
      flash.Lock();
      return false;
    }
    ok := ProgramRange(flash, addr - flash.base, data);
    Localize(r, lo, before, flash.mem[..], offset, AlignUp(|data|, DOUBLEWORD), Padded(data));
    flash.Lock();
  }

  lemma DoublewordAddress(base: nat, offset: nat, origin: nat)
    requires base % DOUBLEWORD == 0 && origin % DOUBLEWORD == 0 && origin <= base
    ensures (base + offset) % DOUBLEWORD == 0 <==> offset % DOUBLEWORD == 0
    ensures offset % DOUBLEWORD == 0 ==> (base + offset - origin) % DOUBLEWORD == 0
  {}

  lemma PaddingFits(len: nat, room: int)
    requires len <= room
    ensures room % DOUBLEWORD == 0 ==> AlignUp(len, DOUBLEWORD) <= room
    ensures len <= AlignUp(len, DOUBLEWORD) < len + DOUBLEWORD && AlignUp(len, DOUBLEWORD) % DOUBLEWORD == 0
  {}

  /** What programming data at lo may do to memory: nothing outside its doublewords, and success only
      if they were erased and now hold the padded data. */
  ghost predicate Programmed(before: seq<byte>, after: seq<byte>, lo: nat, data: seq<byte>, ok: bool)
    requires |data| % DOUBLEWORD == 0
  {
    && SameOutside(before, after, lo, lo + |data|)
    && (ok ==> Holds(after, lo, data) && AllErased(before, lo, lo + |data|))
  }

  /** The driver's write loop. */
  method ProgramRange(flash: Flash, lo: nat, data: seq<byte>) returns (ok: bool)
    requires data != [] && lo % DOUBLEWORD == 0 && lo + |Padded(data)| <= flash.mem.Length
    modifies flash.mem, flash`overwrites
    ensures |Padded(data)| % DOUBLEWORD == 0
    ensures Programmed(old(flash.mem[..]), flash.mem[..], lo, Padded(data), ok)
    ensures old(AllErased(flash.mem[..], lo, lo + |Padded(data)|)) ==>
              flash.overwrites == old(flash.overwrites) && (flash.reliable ==> ok)
  {
    ghost var before, padded := flash.mem[..], Padded(data);
    PaddingFits(|data|, |data|);
    assert padded[..0] == [];
    assert Programmed(before, flash.mem[..], lo, [], true);
    hide AllErased, Padded, AlignUp, Doubleword, Programmed;
    var i, done := 0, 0;
    while i < |data|
      invariant done % DOUBLEWORD == 0 && done <= |padded| && i == if done <= |data| then done else |data|
      invariant i == |data| ==> done == |padded|
      invariant Programmed(before, flash.mem[..], lo, padded[..done], true)
      invariant flash.overwrites == old(flash.overwrites)
    {
      var remaining := |data| - i;
      var cpy := if remaining >= 8 then 8 else remaining;
      PaddedDoubleword(data, i, cpy);
      ok := ProgramNext(flash, lo, before, padded, done, Doubleword(data[i..i + cpy]));
      if !ok {
        return false;
      }
      i := i + cpy;
      done := done + 8;
    }
    assert padded[..|padded|] == padded;
    return true;
  }

  method ProgramNext(flash: Flash, lo: nat, ghost before: seq<byte>, ghost padded: seq<byte>, done: nat,
      chunk: seq<byte>)
    returns (ok: bool)
    requires |padded| % DOUBLEWORD == 0 && done % DOUBLEWORD == 0 && done + DOUBLEWORD <= |padded|
    requires lo % DOUBLEWORD == 0 && lo + |padded| <= flash.mem.Length && chunk == padded[done..done + DOUBLEWORD]
    requires Programmed(before, flash.mem[..], lo, padded[..done], true)
    modifies flash.mem, flash`overwrites
    ensures ok ==> Programmed(before, flash.mem[..], lo, padded[..done + DOUBLEWORD], true)
    ensures !ok ==> Programmed(before, flash.mem[..], lo, padded, false)
    ensures ok ==> flash.overwrites == old(flash.overwrites)
    ensures AllErased(before, lo, lo + |padded|) ==>
              flash.overwrites == old(flash.overwrites) && (flash.reliable ==> ok)
  {
    ghost var was := flash.mem[..];
    var mid := lo + done;
    ghost var next, hi := mid + 8, lo + |padded|;
    hide AllErased, Holds, SameOutside;
    ok := flash.ProgramDoubleword(mid, chunk);
    KeepOutside(before, was, flash.mem[..], lo, mid, next);
    ErasedSplit(before, lo, next, hi);
    if ok {
      HoldsMore(was, flash.mem[..], lo, padded, done);
    } else {
      SameInside(flash.mem[..], next, hi);
      KeepOutside(before, flash.mem[..], flash.mem[..], lo, next, hi);
    }
  }

  lemma SameInside(a: seq<byte>, lo: int, hi: int)
    ensures SameOutside(a, a, lo, hi)
  {}

  lemma ErasedSplit(a: seq<byte>, lo: int, mid: int, hi: int)
    requires lo <= mid <= hi
    ensures AllErased(a, lo, hi) ==> AllErased(a, lo, mid)
  {}

  /** One doubleword: the bytes on an erased background. */
  function Doubleword(bytes: seq<byte>): (s: seq<byte>)
    requires |bytes| <= DOUBLEWORD
    ensures |s| == DOUBLEWORD
  {
    bytes + seq(DOUBLEWORD - |bytes|, _ => ERASED)
  }

  lemma PaddedDoubleword(data: seq<byte>, i: nat, cpy: nat)
    requires i < |data| && i % DOUBLEWORD == 0 && cpy == if |data| - i >= 8 then 8 else |data| - i
    ensures i + 8 <= |Padded(data)| && (i + cpy == |data| ==> i + 8 == |Padded(data)|)
    ensures Doubleword(data[i..i + cpy]) == Padded(data)[i..i + 8]
  {}

  lemma KeepOutside(a: seq<byte>, b: seq<byte>, c: seq<byte>, lo: int, mid: int, hi: int)
    requires lo <= mid <= hi && SameOutside(a, b, lo, mid) && SameOutside(b, c, mid, hi)
    ensures SameOutside(a, c, lo, hi)
    ensures AllErased(a, lo, mid) && AllErased(b, mid, hi) ==> AllErased(a, lo, hi)
    ensures AllErased(a, lo, hi) ==> AllErased(b, mid, hi)
  {}

  lemma HoldsMore(b: seq<byte>, c: seq<byte>, lo: int, data: seq<byte>, done: nat)
    requires done + DOUBLEWORD <= |data| && 0 <= lo
    requires SameOutside(b, c, lo + done, lo + done + DOUBLEWORD)
    requires Holds(b, lo, data[..done]) && Holds(c, lo + done, data[done..done + DOUBLEWORD])
    ensures Holds(c, lo, data[..done + DOUBLEWORD])
  {
    forall i | 0 <= i < done + DOUBLEWORD ensures c[lo + i] == data[i] {
      if i < done {
        assert b[lo + i] == data[..done][i];
      } else {
        assert c[lo + done + (i - done)] == data[done..done + DOUBLEWORD][i - done];
      }
    }
  }

  method Read(flash: Flash, r: Region, offset: nat, len: nat) returns (ok: bool, out: seq<byte>)
    requires Fits(r, flash)
    ensures ok <==> len > 0 && r.RangeValid(offset, len)
    ensures ok ==> out == Content(r, flash)[offset..offset + len]
    ensures !ok ==> out == []
  {
    RegionAligned(flash, r);
    hide Fits;
    if len == 0 || !r.RangeValid(offset, len) {
      return false, [];
    }
    var addr := r.base + offset;
    SliceOfSlice(flash.mem[..], At(r, flash, 0), At(r, flash, 0) + r.size, offset, offset + len);
    return true, flash.mem[addr - flash.base..addr - flash.base + len];
  }

  lemma RegionAligned(flash: Flash, r: Region)
    requires Fits(r, flash)
    ensures r.base % DOUBLEWORD == 0 && r.size % DOUBLEWORD == 0 && flash.base % DOUBLEWORD == 0
    ensures flash.base <= r.base && r.base + r.size <= flash.base + flash.mem.Length
  {
    MultipleOfDoubleword(r.base, r.pageSize);
    MultipleOfDoubleword(r.size, r.pageSize);
    MultipleOfDoubleword(flash.base, r.pageSize);
  }

  lemma MultipleOfDoubleword(x: nat, p: nat)
    requires p > 0 && x % p == 0 && p % DOUBLEWORD == 0
    ensures x % DOUBLEWORD == 0
  {
    var k := x / p;
    var d := p / DOUBLEWORD;
    assert x == k * (d * DOUBLEWORD) == (k * d) * DOUBLEWORD;
  }

  /** The pages an erase covers, numbered through both banks: pages a to a + k. */
  lemma Pages(flash: Flash, r: Region, offset: nat, size: nat) returns (a: nat, k: nat)
    requires Fits(r, flash) && size > 0 && r.RangeValid(offset, size) && offset % r.pageSize == 0
    ensures InPages(flash, At(r, flash, offset), AlignUp(size, r.pageSize), a, k)
    ensures offset + AlignUp(size, r.pageSize) <= r.size
  {
    var p := r.pageSize;
    var f := Factor(flash.base, p);
    var g := Factor(r.base, p);
    var o := Factor(offset, p);
    var z := Factor(r.size, p);
    k := (size + p - 1) / p;
    var n := AlignUp(size, p);
    AlignUpIsTimes(size, p);
    hide Times;
    TimesOrder(f, g, p);
    a := g + o - f;
    TimesSum(f, a, p); TimesSum(g, o, p); TimesSum(a, k, p);
    var total := flash.TotalPages();
    TimesOrder(z, o + k - 1, p);
    TimesSum(o + k - 1, 1, p); TimesSum(k - 1, 1, p); TimesSum(o, k - 1, p); TimesSum(o, k, p); TimesOne(p);
    TimesOrder(total, a + k - 1, p); TimesSum(a + k - 1, 1, p);
    TimesOrder(o + k, z, p);
    TimesOrder(g + z, f + total, p);
    TimesSum(g, z, p); TimesSum(f, total, p);
    TimesOrder(a + k, total, p);
  }

  /** Which bank and page an address inside page x lies in, pages being numbered through both banks. */
  lemma PageAt(flash: Flash, r: Region, x: nat, rest: nat)
    requires Fits(r, flash) && x < flash.TotalPages() && rest < r.pageSize
    ensures var addr := flash.base + TimesNat(x, r.pageSize) + rest;
            && (r.BankOf(addr) == r.bank1 <==> x < flash.bankPages)
            && addr >= (if r.BankOf(addr) == r.bank1 then r.flashBase else r.flashBase + r.bankSize)
            && r.PageInBank(addr) == if x < flash.bankPages then x else x - flash.bankPages
  {
    var p, b := r.pageSize, flash.bankPages;
    Quotient(x, rest, p);
    if x >= b {
      Quotient(x - b, rest, p);
    }
    hide Times;
    TimesOne(p);
    TimesSum(x - b, b, p);
    TimesSum(x, 1, p);
    TimesOrder(x + 1, b, p);
    TimesOrder(b, x, p);
    TimesOrder(b, 0, p);
  }

  /** The last address before page x lies in the page before it. */
  lemma LastPage(flash: Flash, r: Region, x: nat)
    requires Fits(r, flash) && 0 < x <= flash.TotalPages()
    ensures TimesNat(x, r.pageSize) > 0
    ensures var addr := flash.base + TimesNat(x, r.pageSize) - 1;
            && (r.BankOf(addr) == r.bank1 <==> x <= flash.bankPages)
            && addr >= (if r.BankOf(addr) == r.bank1 then r.flashBase else r.flashBase + r.bankSize)
            && r.PageInBank(addr) == if x <= flash.bankPages then x - 1 else x - 1 - flash.bankPages
  {
    PageAt(flash, r, x - 1, r.pageSize - 1);
    hide Times;
    TimesOne(r.pageSize);
    TimesSum(x - 1, 1, r.pageSize);
  }

  // ---- arithmetic of whole pages ----

  lemma AlignUpIsTimes(size: nat, p: nat)
    requires p > 0
    ensures var k := (size + p - 1) / p;
            && AlignUp(size, p) == Times(k, p) && AlignUp(size, p) % p == 0
            && size <= AlignUp(size, p) && Times(k - 1, p) < size + (if size == 0 then 1 else 0)
            && (size > 0 ==> k > 0)
  {
    var x := size + p - 1;
    var k, m := x / p, x % p;
    assert x == Times(k, p) + m;
    Quotient(k, 0, p);
    hide Times;
    TimesOne(p);
    TimesSum(k - 1, 1, p);
  }
}
