/** The HDMA side of Snes9x's `dma.cpp` as pure functions: the line
    headers of an HDMA table, the bytes one scanline moves on a channel,
    and how a channel steps from one scanline to the next. */
module HdmaSpec {
  import opened Bits
  import opened DmaSpec

  // ---------------------------------------------------------------------
  // Channel masks

  /** The channels above channel d, `0xfe << d` cut to the eight bits of
      `PPU.HDMA`. */
  function AboveMask(d: int): bv8
    requires 0 <= d < 8
  {
    if d == 0 then 0xFE else if d == 1 then 0xFC else if d == 2 then 0xF8
    else if d == 3 then 0xF0 else if d == 4 then 0xE0 else if d == 5 then 0xC0
    else if d == 6 then 0x80 else 0x00
  }

  /** `PPU.HDMA & (0xfe << d)`: some channel above d has HDMA enabled. */
  predicate HasAbove(m: bv8, d: int)
    requires 0 <= d < 8
  {
    m & AboveMask(d) != 0
  }

  /** The mask test is the bit-by-bit one. */
  lemma HasAboveMeans(m: bv8, d: int)
    requires 0 <= d < 8
    ensures HasAbove(m, d) <==> exists e :: d < e < 8 && HasBit(m, e)
  {
    if HasAbove(m, d) {
      var e := if HasBit(m, 7) then 7 else if HasBit(m, 6) then 6 else if HasBit(m, 5) then 5
               else if HasBit(m, 4) then 4 else if HasBit(m, 3) then 3 else if HasBit(m, 2) then 2
               else 1;
      assert d < e < 8 && HasBit(m, e);
    }
  }

  /** Clearing channel d's bit leaves every other channel's bit as it was. */
  lemma ClearBit(m: bv8, d: int, e: int)
    requires 0 <= d < 8 && 0 <= e < 8
    ensures HasBit(m & !Bit(d), e) <==> HasBit(m, e) && e != d
  {
    if e != d {
      BitsDisjoint(d, e);
    }
  }

  /** Setting channel d's bit leaves every other channel's bit as it was. */
  lemma SetBit(m: bv8, d: int, e: int)
    requires 0 <= d < 8 && 0 <= e < 8
    ensures HasBit(m | Bit(d), e) <==> HasBit(m, e) || e == d
  {
    if e != d {
      BitsDisjoint(d, e);
    }
  }

  /** Masks that agree on the channels from i up agree on the channels
      above i. */
  lemma AboveAgree(h: bv8, f: bv8, i: int)
    requires 0 <= i < 8
    requires forall e :: i <= e < 8 ==> (HasBit(h, e) <==> HasBit(f, e))
    ensures h & AboveMask(i) == f & AboveMask(i)
    decreases 8 - i
  {
    if i < 7 {
      AboveAgree(h, f, i + 1);
      BitAgree(h, f, i + 1);
      AboveSplit(h, i);
      AboveSplit(f, i);
    }
  }

  /** Masks that agree on whether channel d is set agree on its bit. */
  lemma BitAgree(h: bv8, f: bv8, d: int)
    requires 0 <= d < 8 && (HasBit(h, d) <==> HasBit(f, d))
    ensures h & Bit(d) == f & Bit(d)
  {
  }

  /** The channels above i are channel i+1 and the channels above it. */
  lemma AboveSplit(m: bv8, i: int)
    requires 0 <= i < 7
    ensures m & AboveMask(i) == (m & Bit(i + 1)) | (m & AboveMask(i + 1))
  {
  }

  // ---------------------------------------------------------------------
  // Memory access

  /** `S9xGetWord`: the little-endian word at a 24-bit address, its high
      byte from the next address (wrapping at the top of the address
      space). */
  function GetWord(mem: seq<Byte>, a: int): (w: Word)
    requires |mem| == 0x100_0000 && 0 <= a < 0x100_0000
    ensures w % 0x100 == mem[a] && w / 0x100 == mem[(a + 1) % 0x100_0000]
  {
    var lo: int, hi: int := mem[a], mem[(a + 1) % 0x100_0000];
    DivModUnique(lo + 0x100 * hi, 0x100, hi, lo);
    lo + 0x100 * hi
  }

  /** `S9xGetMemPointer`: a host pointer to a 24-bit address when its block
      is directly mapped, represented by the address it was taken for;
      `None` is the null pointer. */
  function MemPointer(env: Env, a: int): (r: Option<int>)
    ensures r.Some? ==> r.value == a
    ensures r.None? <==> !env.mapped(a)
  {
    if env.mapped(a) then Some(a) else None
  }

  // ---------------------------------------------------------------------
  // Line headers

  /** The header byte an HDMA table holds for a group of `count` lines:
      bit 7 clear for a group whose data is sent once ("repeat" in the
      emulator's sense), `0x80` alone for 128 such lines. */
  function EncodeHeader(repeat: bool, count: int): int
  {
    if count == 128 then 0x80 else if repeat then count else 0x80 + count
  }

  /** The line group a nonzero header byte announces: `Repeat` and
      `LineCount`. */
  function HeaderOf(line: Byte): (h: (bool, Byte))
    requires line != 0
    ensures 1 <= h.1 <= 128
  {
    if line == 0x80 then (true, 128) else (line < 0x80, line % 0x80)
  }

  /** Every nonzero header byte is the encoding of the group it announces,
      and every group of 1 to 127 lines, or of 128 lines sent once, is
      announced by its encoding. */
  lemma HeaderRoundTrip(line: Byte, repeat: bool, count: int)
    ensures line != 0 ==> EncodeHeader(HeaderOf(line).0, HeaderOf(line).1) == line
    ensures (1 <= count < 128 || (count == 128 && repeat)) ==>
            EncodeHeader(repeat, count) != 0 && 0 <= EncodeHeader(repeat, count) < 0x100 &&
            HeaderOf(EncodeHeader(repeat, count) as Byte) == (repeat, count)
  {
  }

  /** The bank an HDMA line reads from, `ShiftedIBank >> 16`. */
  function DataBank(c: Channel): Byte
  {
    if c.hdmaIndirect then c.indirectBank else c.aBank
  }

  /** The address in that bank, `IAddr`: the indirect address of an
      indirect channel, the table address of a direct one. */
  function DataAddr(c: Channel): Word
  {
    if c.hdmaIndirect then c.countOrIndirect else c.address
  }

  /** `ShiftedIBank + IAddr`: the 24-bit address of the next line's data. */
  function DataBase(c: Channel): (a: int)
    ensures 0 <= a < 0x100_0000 && a / 0x1_0000 == DataBank(c) && a % 0x1_0000 == DataAddr(c)
  {
    DivModUnique(DataBank(c) * 0x1_0000 + DataAddr(c), 0x1_0000, DataBank(c), DataAddr(c));
    DataBank(c) * 0x1_0000 + DataAddr(c)
  }

  /** A cached HDMA pointer agrees with its channel: it is null, or points
      at the channel's next line data. */
  predicate Synced(c: Channel, ptr: Option<int>)
  {
    ptr.None? || ptr.value == DataBase(c)
  }

  /** What `HDMAReadLineCount` leaves behind: the channel record, the
      cached pointer, the cycles it charged, and whether the table goes
      on. */
  datatype Reload = Reload(chan: Channel, ptr: Option<int>, cycles: nat, more: bool)

  /** The header bytes `HDMAReadLineCount` consumes: one for a direct
      channel; for an indirect one the two bytes of the indirect address
      as well, except that the final header of the highest enabled
      channel skips only one of them. */
  function HeaderBytes(c: Channel, more: bool, above: bool): nat
  {
    if !c.hdmaIndirect then 1 else if more || above then 3 else 2
  }

  /** `HDMAReadLineCount` on a zero header byte: the table ends and the
      pointer is dropped; an indirect channel still loads an indirect
      address, one byte further on when a higher channel is enabled. */
  function TableEnd(env: Env, mem: seq<Byte>, c: Channel, above: bool): (r: Reload)
    requires |mem| == 0x100_0000
    ensures !r.more && r.ptr.None? && r.chan.lineCount == 128 && !r.chan.repeat
    ensures r.chan.doTransfer == c.doTransfer
    ensures var bytes := HeaderBytes(c, false, above);
      r.chan.address == (c.address + bytes) % 0x1_0000 && r.cycles == bytes * env.slowOneCycle
    ensures r.chan == c.(address := r.chan.address, countOrIndirect := r.chan.countOrIndirect,
                         repeat := false, lineCount := 128)
    ensures !c.hdmaIndirect ==> r.chan.countOrIndirect == c.countOrIndirect
  {
    var skip := c.hdmaIndirect && above;
    var a1 := if skip then (c.address + 1) % 0x1_0000 else c.address;
    var c1 := c.(repeat := false, lineCount := 128,
                 address := (c.address + HeaderBytes(c, false, above)) % 0x1_0000);
    var c2 := if c.hdmaIndirect then c1.(countOrIndirect := GetWord(mem, c.aBank * 0x1_0000 + a1)) else c1;
    Reload(c2, None, HeaderBytes(c, false, above) * env.slowOneCycle, false)
  }

  /** `HDMAReadLineCount` on a nonzero header byte: a group of lines starts
      with transfer on, the table address moves past the header (and the
      indirect address), and a pointer to the line data is cached. */
  function GroupStart(env: Env, mem: seq<Byte>, c: Channel, line: Byte): (r: Reload)
    requires |mem| == 0x100_0000 && line != 0
    ensures r.more && r.chan.doTransfer && 1 <= r.chan.lineCount <= 128 && Synced(r.chan, r.ptr)
    ensures EncodeHeader(r.chan.repeat, r.chan.lineCount) == line
    ensures var bytes := HeaderBytes(c, true, false);
      r.chan.address == (c.address + bytes) % 0x1_0000 && r.cycles == bytes * env.slowOneCycle
    ensures r.chan == c.(address := r.chan.address, countOrIndirect := r.chan.countOrIndirect,
                         repeat := r.chan.repeat, lineCount := r.chan.lineCount, doTransfer := true)
    ensures !c.hdmaIndirect ==> r.chan.countOrIndirect == c.countOrIndirect
  {
    var h := HeaderOf(line);
    HeaderRoundTrip(line, false, 0);
    var bytes := HeaderBytes(c, true, false);
    var c1 := c.(repeat := h.0, lineCount := h.1, address := (c.address + bytes) % 0x1_0000, doTransfer := true);
    var c2 := if c.hdmaIndirect
              then c1.(countOrIndirect := GetWord(mem, c.aBank * 0x1_0000 + (c.address + 1) % 0x1_0000))
              else c1;
    Reload(c2, MemPointer(env, DataBase(c2)), bytes * env.slowOneCycle, true)
  }

  /** `HDMAReadLineCount(d)` with `PPU.HDMA == hdma`: the header byte at
      the table address ends the table when it is zero and starts a group
      of lines otherwise. */
  function LineHeader(env: Env, mem: seq<Byte>, c: Channel, d: int, hdma: bv8): (r: Reload)
    requires EnvOk(env) && |mem| == 0x100_0000 && 0 <= d < 8
    ensures var line := mem[c.aBank * 0x1_0000 + c.address];
      && (r.more <==> line != 0)
      && (r.more ==> r.chan.doTransfer && 1 <= r.chan.lineCount <= 128 && Synced(r.chan, r.ptr)
                     && EncodeHeader(r.chan.repeat, r.chan.lineCount) == line)
      && (!r.more ==> r.ptr.None? && r.chan.lineCount == 128 && !r.chan.repeat
                      && r.chan.doTransfer == c.doTransfer)
    ensures var bytes := HeaderBytes(c, r.more, HasAbove(hdma, d));
      && r.chan.address == (c.address + bytes) % 0x1_0000
      && r.cycles == bytes * env.slowOneCycle
    ensures r.chan == c.(address := r.chan.address, countOrIndirect := r.chan.countOrIndirect,
                         repeat := r.chan.repeat, lineCount := r.chan.lineCount,
                         doTransfer := r.chan.doTransfer)
    ensures !c.hdmaIndirect ==> r.chan.countOrIndirect == c.countOrIndirect
  {
    var line := mem[c.aBank * 0x1_0000 + c.address];
    if line == 0 then TableEnd(env, mem, c, HasAbove(hdma, d)) else GroupStart(env, mem, c, line)
  }

  /** The header that ends a table leaves the indirect address of an
      indirect channel read as the word at the zero byte itself, or at the
      byte after it when a higher channel is enabled. */
  lemma LineHeaderEndIndirect(env: Env, mem: seq<Byte>, c: Channel, d: int, hdma: bv8)
    requires EnvOk(env) && |mem| == 0x100_0000 && 0 <= d < 8
    requires c.hdmaIndirect && mem[c.aBank * 0x1_0000 + c.address] == 0
    ensures var a := (c.address + (if HasAbove(hdma, d) then 1 else 0)) % 0x1_0000;
            LineHeader(env, mem, c, d, hdma).chan.countOrIndirect == GetWord(mem, c.aBank * 0x1_0000 + a)
  {
  }

  /** A header that starts a group leaves an indirect channel's indirect
      address read from the two bytes after the header byte. */
  lemma LineHeaderIndirect(env: Env, mem: seq<Byte>, c: Channel, d: int, hdma: bv8)
    requires EnvOk(env) && |mem| == 0x100_0000 && 0 <= d < 8
    requires c.hdmaIndirect && mem[c.aBank * 0x1_0000 + c.address] != 0
    ensures LineHeader(env, mem, c, d, hdma).chan.countOrIndirect
            == GetWord(mem, c.aBank * 0x1_0000 + (c.address + 1) % 0x1_0000)
  {
  }

  /** Only the enabled channels above d matter to `HDMAReadLineCount(d)`. */
  lemma LineHeaderAbove(env: Env, mem: seq<Byte>, c: Channel, d: int, h1: bv8, h2: bv8)
    requires EnvOk(env) && |mem| == 0x100_0000 && 0 <= d < 8
    requires h1 & AboveMask(d) == h2 & AboveMask(d)
    ensures LineHeader(env, mem, c, d, h1) == LineHeader(env, mem, c, d, h2)
  {
  }

  // ---------------------------------------------------------------------
  // One scanline of a channel

  /** `HDMA_ModeByteCounts[TransferMode]`: the bytes of one line. */
  function LineBytes(c: Channel): (n: nat)
    ensures n == |HdmaPattern(c.transferMode)| && 1 <= n <= 4
  {
    ModeByteCountsArePatternLengths(c.transferMode);
    ModeByteCounts[c.transferMode]
  }

  /** The line data runs into the next memory block: the really-slow path. */
  predicate CrossesBlock(c: Channel)
  {
    DataAddr(c) % BlockSize + LineBytes(c) >= BlockSize
  }

  /** Data that stays inside its block does not wrap around its bank. */
  lemma InsideBlock(c: Channel, k: nat)
    requires !CrossesBlock(c) && k < LineBytes(c)
    ensures DataAddr(c) + k < 0x1_0000
  {
    var a := DataAddr(c);
    DivModUnique(a, BlockSize, a / BlockSize, a % BlockSize);
  }

  /** The cached pointer a line starts with: fetched when it is null. */
  function LinePtrIn(env: Env, c: Channel, ptr: Option<int>): (r: Option<int>)
    ensures Synced(c, ptr) ==> Synced(c, r)
    ensures ptr.Some? ==> r == ptr
  {
    if ptr.None? then MemPointer(env, DataBase(c)) else ptr
  }

  /** How the bytes of a line are read: through S9xGetByte one 16-bit
      address at a time (really-slow path), from consecutive 24-bit
      addresses (slow path), or through the cached pointer (fast path). */
  datatype LinePath = ReallySlow | Slow | Fast(at: int)

  /** The path a CPU-to-PPU line takes, for the pointer it starts with. */
  function PathOf(c: Channel, ptr: Option<int>): LinePath
  {
    if CrossesBlock(c) then ReallySlow else if ptr.Some? then Fast(ptr.value) else Slow
  }

  /** The 24-bit address byte k of a line is read from on a path. */
  function LineSource(c: Channel, path: LinePath, k: nat): (a: int)
    ensures 0 <= a < 0x100_0000
  {
    match path
    case Fast(p) => (p + k) % 0x100_0000
    case _ => DataBank(c) * 0x1_0000 + (DataAddr(c) + k) % 0x1_0000
  }

  /** The first k B-bus writes of a CPU-to-PPU line: the bytes of the line
      in order, each through `S9xSetPPU` to the register the mode's HDMA
      pattern gives. */
  function LineWrites(mem: seq<Byte>, c: Channel, path: LinePath, k: nat): (w: seq<PpuWrite>)
    requires |mem| == 0x100_0000 && k <= LineBytes(c)
    ensures |w| == k
    decreases k
  {
    if k == 0 then []
    else
      LineWrites(mem, c, path, k - 1)
        + [PpuWrite(0x2100 + c.bAddress + HdmaPattern(c.transferMode)[k - 1],
                    mem[LineSource(c, path, k - 1)], Generic)]
  }

  /** Write i of a line carries byte i of the line to its pattern register. */
  lemma {:induction false} LineWriteAt(mem: seq<Byte>, c: Channel, path: LinePath, k: nat, i: nat)
    requires |mem| == 0x100_0000 && i < k <= LineBytes(c)
    ensures LineWrites(mem, c, path, k)[i]
            == PpuWrite(0x2100 + c.bAddress + HdmaPattern(c.transferMode)[i],
                        mem[LineSource(c, path, i)], Generic)
    decreases k
  {
    if i < k - 1 {
      LineWriteAt(mem, c, path, k - 1, i);
    }
  }

  /** With a pointer that agrees with its channel, every path reads the
      same bytes: the fast and slow paths send exactly what the
      really-slow path would. */
  lemma {:induction false} LinePathsAgree(mem: seq<Byte>, c: Channel, ptr: Option<int>, k: nat)
    requires |mem| == 0x100_0000 && k <= LineBytes(c) && Synced(c, ptr)
    ensures LineWrites(mem, c, PathOf(c, ptr), k) == LineWrites(mem, c, ReallySlow, k)
    decreases k
  {
    if k > 0 {
      LinePathsAgree(mem, c, ptr, k - 1);
      if !CrossesBlock(c) {
        InsideBlock(c, k - 1);
        assert LineSource(c, PathOf(c, ptr), k - 1) == LineSource(c, ReallySlow, k - 1);
      }
    }
  }

  /** The 24-bit address the i-th byte of a PPU-to-CPU line is stored at. */
  function LineTarget(c: Channel, i: nat): (a: int)
    ensures 0 <= a < 0x100_0000
  {
    LineSource(c, ReallySlow, i)
  }

  /** The value the i-th byte of a PPU-to-CPU line reads from its pattern
      register, when the B bus has been read r0 times before the line. */
  function LineValue(env: Env, c: Channel, r0: nat, i: nat): Byte
    requires i < LineBytes(c)
  {
    env.ppuRead(0x2100 + c.bAddress + HdmaPattern(c.transferMode)[i], r0 + i)
  }

  /** Memory after the first k bytes of a PPU-to-CPU line. */
  function LineStores(env: Env, mem: seq<Byte>, c: Channel, r0: nat, k: nat): (m: seq<Byte>)
    requires |mem| == 0x100_0000 && k <= LineBytes(c)
    ensures |m| == 0x100_0000
    decreases k
  {
    if k == 0 then mem
    else LineStores(env, mem, c, r0, k - 1)[LineTarget(c, k - 1) := LineValue(env, c, r0, k - 1)]
  }

  /** The bytes of a line land at distinct addresses. */
  lemma LineTargetsDiffer(c: Channel, i: nat, j: nat)
    requires i < j < LineBytes(c)
    ensures LineTarget(c, i) != LineTarget(c, j)
  {
  }

  /** After a PPU-to-CPU line each of its bytes holds the value read for
      it, and no other address has changed. */
  lemma {:induction false} LineStoresHold(env: Env, mem: seq<Byte>, c: Channel, r0: nat, k: nat, a: int)
    requires |mem| == 0x100_0000 && k <= LineBytes(c) && 0 <= a < 0x100_0000
    ensures forall i :: 0 <= i < k && a == LineTarget(c, i) ==>
              LineStores(env, mem, c, r0, k)[a] == LineValue(env, c, r0, i)
    ensures (forall i :: 0 <= i < k ==> a != LineTarget(c, i)) ==>
              LineStores(env, mem, c, r0, k)[a] == mem[a]
    decreases k
  {
    if k > 0 {
      LineStoresHold(env, mem, c, r0, k - 1, a);
      forall i | 0 <= i < k - 1 && a == LineTarget(c, i)
        ensures a != LineTarget(c, k - 1)
      {
        LineTargetsDiffer(c, i, k - 1);
      }
    }
  }

  /** The cached pointer after a channel's line: dropped by the really-slow
      and PPU-to-CPU paths, moved past the line by the fast path. */
  function LinePtrOut(env: Env, c: Channel, ptr: Option<int>): Option<int>
  {
    var p1 := LinePtrIn(env, c, ptr);
    if !c.doTransfer then p1 else TransferPtr(c, p1)
  }

  /** The cached pointer after a line that transfers, from the pointer p1
      the line starts with. */
  function TransferPtr(c: Channel, p1: Option<int>): Option<int>
  {
    if c.reverseTransfer || CrossesBlock(c) then None
    else if p1.Some? then Some(p1.value + LineBytes(c))
    else None
  }

  /** The bus-side state one line changes: memory, the count of B-bus
      reads, the B-bus trace and the cycle count. */
  datatype Bus = Bus(mem: seq<Byte>, readCount: nat, trace: seq<PpuWrite>, cycles: int)

  /** The bus effect of the line of a channel whose cached pointer is ptr:
      nothing when the channel does not transfer on this line, otherwise
      its bytes moved in the channel's direction at `SLOW_ONE_CYCLE` each. */
  function LineBus(env: Env, c: Channel, ptr: Option<int>, s: Bus): (r: Bus)
    requires |s.mem| == 0x100_0000
    ensures |r.mem| == 0x100_0000
  {
    if !c.doTransfer then s else TransferBus(env, c, LinePtrIn(env, c, ptr), s)
  }

  /** The bus effect of a line that transfers, from the pointer p1 the
      line starts with. */
  function TransferBus(env: Env, c: Channel, p1: Option<int>, s: Bus): (r: Bus)
    requires |s.mem| == 0x100_0000
    ensures |r.mem| == 0x100_0000
  {
    var n := LineBytes(c);
    if c.reverseTransfer then
      Bus(LineStores(env, s.mem, c, s.readCount, n), s.readCount + n, s.trace, s.cycles + n * env.slowOneCycle)
    else
      Bus(s.mem, s.readCount, s.trace + LineWrites(s.mem, c, PathOf(c, p1), n), s.cycles + n * env.slowOneCycle)
  }

  /** The bus effect of the first loop of `S9xDoHDMA(mask)` over channels
      0 to d-1, in channel order. */
  function LinesBus(env: Env, chans: seq<Channel>, ptrs: seq<Option<int>>, mask: bv8, d: nat, s: Bus): (r: Bus)
    requires |chans| == 8 && |ptrs| == 8 && d <= 8 && |s.mem| == 0x100_0000
    ensures |r.mem| == 0x100_0000
    decreases d
  {
    if d == 0 then s
    else
      var r := LinesBus(env, chans, ptrs, mask, d - 1, s);
      if HasBit(mask, d - 1) then LineBus(env, chans[d - 1], ptrs[d - 1], r) else r
  }

  /** The pointers the first loop of `S9xDoHDMA(mask)` leaves. */
  function LinesPtrs(env: Env, chans: seq<Channel>, ptrs: seq<Option<int>>, mask: bv8): (r: seq<Option<int>>)
    requires |chans| == 8 && |ptrs| == 8
    ensures |r| == 8
    ensures forall e :: 0 <= e < 8 ==>
              r[e] == if HasBit(mask, e) then LinePtrOut(env, chans[e], ptrs[e]) else ptrs[e]
  {
    seq(8, e requires 0 <= e < 8 => if HasBit(mask, e) then LinePtrOut(env, chans[e], ptrs[e]) else ptrs[e])
  }

  /** The Uniracers fix-up of a line: a channel that transfers to OAMDATA
      resets the OAM address when the game needs it. */
  predicate OamFix(env: Env, c: Channel)
  {
    c.doTransfer && c.bAddress == 0x04 && env.uniracers
  }

  /** Some channel below d in mask applies the Uniracers fix-up. */
  ghost predicate AnyOamFix(env: Env, chans: seq<Channel>, mask: bv8, d: int)
    requires |chans| == 8 && d <= 8
  {
    exists e :: 0 <= e < d && HasBit(mask, e) && OamFix(env, chans[e])
  }

  /** Channel d joins the channels that may apply the fix-up. */
  lemma AnyOamFixNext(env: Env, chans: seq<Channel>, mask: bv8, d: int)
    requires |chans| == 8 && 0 <= d < 8
    ensures AnyOamFix(env, chans, mask, d + 1)
            <==> AnyOamFix(env, chans, mask, d) || (HasBit(mask, d) && OamFix(env, chans[d]))
  {
    if AnyOamFix(env, chans, mask, d + 1) && !(HasBit(mask, d) && OamFix(env, chans[d])) {
      var e :| 0 <= e < d + 1 && HasBit(mask, e) && OamFix(env, chans[e]);
      assert e < d;
    }
  }

  /** Channels 0 to d-1 have had their line in the first loop of
      `S9xDoHDMA(mask)`, from records chans, pointers ptrs, bus s0 and OAM
      state oam0: the pointers ps, the bus and the OAM state oam are what
      those lines leave. */
  ghost predicate SentBelow(env: Env, chans: seq<Channel>, ptrs: seq<Option<int>>, mask: bv8, s0: Bus,
                            oam0: (int, int), ps: seq<Option<int>>, bus: Bus, oam: (int, int), d: int)
    requires |chans| == 8 && |ptrs| == 8 && |ps| == 8 && 0 <= d <= 8 && |s0.mem| == 0x100_0000
  {
    && (forall e :: 0 <= e < 8 ==> ps[e] == if e < d then LinesPtrs(env, chans, ptrs, mask)[e] else ptrs[e])
    && bus == LinesBus(env, chans, ptrs, mask, d, s0)
    && oam == (if AnyOamFix(env, chans, mask, d) then (0x10C, 0) else oam0)
  }

  /** Channel d joins the channels that have had their line. */
  lemma SentStep(env: Env, chans: seq<Channel>, ptrs: seq<Option<int>>, mask: bv8, s0: Bus, oam0: (int, int),
                 ps: seq<Option<int>>, bus: Bus, oam: (int, int), ps': seq<Option<int>>, bus': Bus, oam': (int, int),
                 d: int)
    requires |chans| == 8 && |ptrs| == 8 && |ps| == 8 && |ps'| == 8 && 0 <= d < 8 && |s0.mem| == 0x100_0000
    requires SentBelow(env, chans, ptrs, mask, s0, oam0, ps, bus, oam, d)
    requires forall e :: 0 <= e < 8 && e != d ==> ps'[e] == ps[e]
    requires HasBit(mask, d) ==>
               && ps'[d] == LinePtrOut(env, chans[d], ps[d]) && bus' == LineBus(env, chans[d], ps[d], bus)
               && oam' == (if OamFix(env, chans[d]) then (0x10C, 0) else oam)
    requires !HasBit(mask, d) ==> ps'[d] == ps[d] && bus' == bus && oam' == oam
    ensures SentBelow(env, chans, ptrs, mask, s0, oam0, ps', bus', oam', d + 1)
  {
    AnyOamFixNext(env, chans, mask, d);
  }


  // ---------------------------------------------------------------------
  // The end of a line

  /** The bookkeeping after a channel's line, before its line counter is
      tested: the data address moved past the line if it transferred,
      transfer on the next line only for a group sent every line, and one
      line fewer. */
  function LineAdvance(c: Channel): (r: Channel)
    ensures DataBank(r) == DataBank(c)
    ensures DataAddr(r) == (DataAddr(c) + (if c.doTransfer then LineBytes(c) else 0)) % 0x1_0000
    ensures r.doTransfer == !c.repeat
    ensures r.lineCount == if c.lineCount == 0 then 0xFF else c.lineCount - 1
  {
    var n := LineBytes(c);
    var c1 := if !c.doTransfer then c
              else if c.hdmaIndirect then c.(countOrIndirect := (c.countOrIndirect + n) % 0x1_0000)
              else c.(address := (c.address + n) % 0x1_0000);
    c1.(doTransfer := !c.repeat, lineCount := (c.lineCount + 0xFF) % 0x100)
  }

  /** The second loop of `S9xDoHDMA` for channel d, whose pointer after
      its line is ptr: a channel whose group is not over is charged one
      cycle; otherwise the next header is read, and a channel whose table
      ended stops transferring. */
  function EndLine(env: Env, mem: seq<Byte>, c: Channel, d: int, hdma: bv8, ptr: Option<int>): (r: Reload)
    requires EnvOk(env) && |mem| == 0x100_0000 && 0 <= d < 8
    ensures !r.more ==> !r.chan.doTransfer && r.ptr.None?
  {
    var c1 := LineAdvance(c);
    if c1.lineCount == 0 then
      var r := LineHeader(env, mem, c1, d, hdma);
      if r.more then r else r.(chan := r.chan.(doTransfer := false))
    else Reload(c1, ptr, env.slowOneCycle, true)
  }

  /** A line keeps a channel's cached pointer in step with its data
      address, whichever path the line takes, and a channel that goes on
      has lines left in its group. */
  lemma EndLineKeepsSync(env: Env, mem: seq<Byte>, c: Channel, d: int, hdma: bv8, ptr: Option<int>)
    requires EnvOk(env) && |mem| == 0x100_0000 && 0 <= d < 8
    requires Synced(c, ptr)
    ensures var r := EndLine(env, mem, c, d, hdma, LinePtrOut(env, c, ptr));
      Synced(r.chan, r.ptr) && (r.more ==> r.chan.lineCount >= 1)
  {
    var p1 := LinePtrIn(env, c, ptr);
    var c1 := LineAdvance(c);
    if c.doTransfer && !c.reverseTransfer && !CrossesBlock(c) && p1.Some? {
      InsideBlock(c, LineBytes(c) - 1);
      assert Synced(c1, LinePtrOut(env, c, ptr));
    }
  }

  /** The cycles of the second loop of `S9xDoHDMA(mask)` over channels 0
      to d-1, for the pointers ptrs the first loop left. */
  function EndCycles(env: Env, mem: seq<Byte>, chans: seq<Channel>, ptrs: seq<Option<int>>, hdma: bv8,
                     mask: bv8, d: nat): int
    requires EnvOk(env) && |mem| == 0x100_0000 && |chans| == 8 && |ptrs| == 8 && d <= 8
    decreases d
  {
    if d == 0 then 0
    else
      EndCycles(env, mem, chans, ptrs, hdma, mask, d - 1)
        + if HasBit(mask, d - 1)
          then EndLine(env, mem, chans[d - 1], d - 1, hdma, ptrs[d - 1]).cycles
          else 0
  }

  /** The cycles `HDMAReadLineCount` charges for channels 0 to d-1 of
      mask when `S9xStartHDMA` restarts their tables. */
  function StartCycles(env: Env, mem: seq<Byte>, chans: seq<Channel>, mask: bv8, d: nat): int
    requires EnvOk(env) && |mem| == 0x100_0000 && |chans| == 8 && d <= 8
    decreases d
  {
    if d == 0 then 0
    else
      StartCycles(env, mem, chans, mask, d - 1)
        + if HasBit(mask, d - 1)
          then LineHeader(env, mem, chans[d - 1].(address := chans[d - 1].aAddress), d - 1, mask).cycles
          else 0
  }

  /** What the second loop of `S9xDoHDMA(mask)` leaves for channel d,
      which began its line with record c and left the first loop with
      pointer ptr: an enabled channel ends its line (`EndLine`), stays in
      the returned mask exactly when its table goes on, and is recorded in
      `PPU.HDMAEnded` when it ends; a channel outside mask keeps its
      record and pointer and stays out of the returned mask. */
  predicate EndOutcome(env: Env, mem: seq<Byte>, hdma: bv8, mask: bv8, d: int, c: Channel, ptr: Option<int>,
                       ended0: bool, c2: Channel, ptr2: Option<int>, kept: bool, ended: bool)
    requires EnvOk(env) && |mem| == 0x100_0000 && 0 <= d < 8
  {
    if HasBit(mask, d) then
      var r := EndLine(env, mem, c, d, hdma, ptr);
      c2 == r.chan && ptr2 == r.ptr && (kept <==> r.more) && (ended <==> ended0 || !r.more)
    else
      c2 == c && ptr2 == ptr && !kept && (ended <==> ended0)
  }

  /** What `S9xStartHDMA` leaves for channel d, with record c and pointer
      ptr before, when $420C holds fill: an enabled channel restarts its
      table at `AAddress` and reads the first header, and is enabled for
      HDMA afterwards exactly when the table is not empty, and recorded as
      ended exactly when it is; a disabled channel stops transferring. */
  predicate StartOutcome(env: Env, mem: seq<Byte>, fill: bv8, d: int, c: Channel, ptr: Option<int>,
                         c2: Channel, ptr2: Option<int>, enabled: bool, ended: bool)
    requires EnvOk(env) && |mem| == 0x100_0000 && 0 <= d < 8
  {
    if HasBit(fill, d) then
      var r := LineHeader(env, mem, c.(address := c.aAddress), d, fill);
      c2 == r.chan && ptr2 == r.ptr && (enabled <==> r.more) && (ended <==> !r.more)
    else
      c2 == c.(doTransfer := false) && ptr2 == ptr && !enabled && !ended
  }

  /** Channels 0 to d-1 have ended their line in `S9xDoHDMA(mask)` as
      `EndOutcome` says, from records chans, pointers ptrs and
      `PPU.HDMAEnded` ended0, with records ds, pointers ps, kept channels
      left and `PPU.HDMAEnded` en now. */
  ghost predicate EndedBelow(env: Env, mem: seq<Byte>, hdma: bv8, mask: bv8, chans: seq<Channel>,
                             ptrs: seq<Option<int>>, ended0: bv8, ds: seq<Channel>, ps: seq<Option<int>>,
                             left: bv8, en: bv8, d: int)
    requires EnvOk(env) && |mem| == 0x100_0000 && |chans| == 8 && |ptrs| == 8 && |ds| == 8 && |ps| == 8
    requires 0 <= d <= 8
  {
    forall e :: 0 <= e < d ==>
      EndOutcome(env, mem, hdma, mask, e, chans[e], ptrs[e], HasBit(ended0, e), ds[e], ps[e],
                 HasBit(left, e), HasBit(en, e))
  }

  /** Channels d to 7 have not had their turn in the second loop of
      `S9xDoHDMA(mask)` yet. */
  ghost predicate EndPending(mask: bv8, chans: seq<Channel>, ptrs: seq<Option<int>>, ended0: bv8,
                             ds: seq<Channel>, ps: seq<Option<int>>, left: bv8, en: bv8, d: int)
    requires |chans| == 8 && |ptrs| == 8 && |ds| == 8 && |ps| == 8 && 0 <= d <= 8
  {
    forall e :: d <= e < 8 ==>
      ds[e] == chans[e] && ps[e] == ptrs[e] && (HasBit(left, e) <==> HasBit(mask, e))
      && (HasBit(en, e) <==> HasBit(ended0, e))
  }

  /** Channel d joins the channels that have ended their line as
      `EndOutcome` says (ended telling whether its table ended), the
      others untouched. */
  lemma EndStep(env: Env, mem: seq<Byte>, hdma: bv8, mask: bv8, chans: seq<Channel>, ptrs: seq<Option<int>>,
                ended0: bv8, ds: seq<Channel>, ps: seq<Option<int>>, left: bv8, en: bv8,
                ds': seq<Channel>, ps': seq<Option<int>>, left': bv8, en': bv8, d: int, ended: bool)
    requires EnvOk(env) && |mem| == 0x100_0000 && |chans| == 8 && |ptrs| == 8 && |ds| == 8 && |ps| == 8
    requires |ds'| == 8 && |ps'| == 8 && 0 <= d < 8
    requires EndedBelow(env, mem, hdma, mask, chans, ptrs, ended0, ds, ps, left, en, d)
    requires EndPending(mask, chans, ptrs, ended0, ds, ps, left, en, d)
    requires forall e :: 0 <= e < 8 && e != d ==> ds'[e] == ds[e] && ps'[e] == ps[e]
    requires left' == (if ended then left & !Bit(d) else left) && en' == (if ended then en | Bit(d) else en)
    requires EndOutcome(env, mem, hdma, mask, d, ds[d], ps[d], HasBit(en, d), ds'[d], ps'[d],
                        HasBit(mask, d) && !ended, HasBit(en, d) || ended)
    ensures EndedBelow(env, mem, hdma, mask, chans, ptrs, ended0, ds', ps', left', en', d + 1)
    ensures EndPending(mask, chans, ptrs, ended0, ds', ps', left', en', d + 1)
  {
    forall e | 0 <= e < 8
      ensures (HasBit(left', e) <==> if e == d then HasBit(mask, d) && !ended else HasBit(left, e))
      ensures (HasBit(en', e) <==> if e == d then HasBit(en, d) || ended else HasBit(en, e))
    {
      ClearBit(left, d, e);
      SetBit(en, d, e);
    }
  }

  /** Channels 0 to i-1 have come out of `S9xStartHDMA` as `StartOutcome`
      says, with records ds, pointers ps, `PPU.HDMA` h and `PPU.HDMAEnded`
      en. */
  ghost predicate StartedBelow(env: Env, mem: seq<Byte>, fill: bv8, chans: seq<Channel>, ptrs: seq<Option<int>>,
                               ds: seq<Channel>, ps: seq<Option<int>>, h: bv8, en: bv8, i: int)
    requires EnvOk(env) && |mem| == 0x100_0000 && |chans| == 8 && |ptrs| == 8 && |ds| == 8 && |ps| == 8
    requires 0 <= i <= 8
  {
    forall e :: 0 <= e < i ==> StartOutcome(env, mem, fill, e, chans[e], ptrs[e], ds[e], ps[e], HasBit(h, e), HasBit(en, e))
  }

  /** Channel i joins the started channels, the lower ones untouched. */
  ghost predicate PendingFrom(fill: bv8, chans: seq<Channel>, ptrs: seq<Option<int>>,
                              ds: seq<Channel>, ps: seq<Option<int>>, h: bv8, en: bv8, i: int)
    requires |chans| == 8 && |ptrs| == 8 && |ds| == 8 && |ps| == 8 && 0 <= i <= 8
  {
    forall e :: i <= e < 8 ==>
      ds[e] == chans[e] && ps[e] == ptrs[e] && (HasBit(h, e) <==> HasBit(fill, e)) && !HasBit(en, e)
  }

  /** Channel i joins the started channels as `StartOutcome` says (ended
      telling whether its table was empty) and leaves the channels still to
      be started, the higher ones untouched. */
  lemma StartStep(env: Env, mem: seq<Byte>, fill: bv8, chans: seq<Channel>, ptrs: seq<Option<int>>,
                  ds: seq<Channel>, ps: seq<Option<int>>, h: bv8, en: bv8,
                  ds': seq<Channel>, ps': seq<Option<int>>, h': bv8, en': bv8, i: int, ended: bool)
    requires EnvOk(env) && |mem| == 0x100_0000 && |chans| == 8 && |ptrs| == 8 && |ds| == 8 && |ps| == 8
    requires |ds'| == 8 && |ps'| == 8 && 0 <= i < 8
    requires StartedBelow(env, mem, fill, chans, ptrs, ds, ps, h, en, i)
    requires PendingFrom(fill, chans, ptrs, ds, ps, h, en, i)
    requires forall e :: 0 <= e < 8 && e != i ==> ds'[e] == ds[e] && ps'[e] == ps[e]
    requires h' == (if ended then h & !Bit(i) else h) && en' == (if ended then en | Bit(i) else en)
    requires StartOutcome(env, mem, fill, i, ds[i], ps[i], ds'[i], ps'[i], HasBit(fill, i) && !ended, ended)
    ensures StartedBelow(env, mem, fill, chans, ptrs, ds', ps', h', en', i + 1)
    ensures PendingFrom(fill, chans, ptrs, ds', ps', h', en', i + 1)
  {
    forall e | 0 <= e < 8
      ensures (HasBit(h', e) <==> if e == i then HasBit(fill, i) && !ended else HasBit(h, e))
      ensures (HasBit(en', e) <==> if e == i then ended else HasBit(en, e))
    {
      ClearBit(h, i, e);
      SetBit(en, i, e);
    }
  }

}
