/** The DMA/HDMA engine of Snes9x's `dma.cpp` as a class over the eight
    channel records and the CPU, PPU and memory state the transfers touch. */
module DmaEngine {
  import opened Bits
  import opened DmaSpec
  import opened HdmaSpec

  /** The pattern phase after one more byte. */
  lemma PhaseNext(j: nat, len: nat)
    requires len > 0
    ensures (j % len + 1) % len == (j + 1) % len
  {
    ModAddMod(j, 1, len);
  }

  class SnesDma {
    /** Constants, settings and the oracles for code outside the engine. */
    const env: Env
    /** `DMA[8]`: the channel records. */
    const dma: array<Channel>
    /** `HDMAMemPointers[8]`: the address each cached HDMA pointer points
        at, or `None` for a null pointer. */
    const hdmaPointers: array<Option<int>>
    /** `CPU.Cycles`, `CPU.NextEvent`, `CPU.HDMARanInDMA`. */
    var clock: Clock
    /** `CPU.InDMA`, `CPU.InHDMA`, `CPU.InDMAorHDMA`, `CPU.InWRAMDMAorHDMA`,
        `CPU.CurrentDMAorHDMAChannel`, `CPU.NMIPending`. */
    var cpu: CpuFlags
    /** `Timings.NMITriggerPos` */
    var nmiTriggerPos: int
    /** The 24-bit A-bus address space as `S9xGetByte`/`S9xSetByte` see it. */
    var mem: seq<Byte>
    /** Every byte written to a B-bus register, in order. */
    var ppuTrace: seq<PpuWrite>
    /** The number of B-bus register reads so far. */
    var ppuReads: nat
    /** `PPU.HDMA` and `PPU.HDMAEnded` */
    var hdma: bv8
    var hdmaEnded: bv8
    /** `PPU.OAMAddr` and `PPU.OAMFlip` */
    var oamAddr: int
    var oamFlip: int
    /** `PPU.VMA.FullGraphicCount != 0` */
    var vramFullGraphic: bool
    /** `Memory.FillRAM[0x4801]` and `Memory.FillRAM[0x420c]` */
    var fill4801: Byte
    var fill420c: bv8

    ghost predicate Valid()
      reads this`mem
    {
      EnvOk(env) && dma.Length == 8 && hdmaPointers.Length == 8 && |mem| == 0x100_0000
    }

    /** An engine with every channel in its power-on state. */
    constructor (env: Env, mem: seq<Byte>)
      requires EnvOk(env) && |mem| == 0x100_0000
      ensures Valid() && this.env == env && this.mem == mem
      ensures forall d :: 0 <= d < 8 ==> dma[d] == ResetChannel && hdmaPointers[d].None?
      ensures ppuTrace == [] && ppuReads == 0
    {
      this.env := env;
      this.mem := mem;
      dma := new Channel[8](_ => ResetChannel);
      hdmaPointers := new Option<int>[8](_ => None);
      clock := Clock(0, 0, 0, 0);
      cpu := CpuFlags(false, false, false, false, -1, false);
      nmiTriggerPos := 0xffff;
      ppuTrace := [];
      ppuReads := 0;
      hdma := 0;
      hdmaEnded := 0;
      oamAddr := 0;
      oamFlip := 0;
      vramFullGraphic := false;
      fill4801 := 0;
      fill420c := 0;
    }

    /** `addCyclesInDMA`: charge one byte's cycles, run the events they
        reach, and report whether no HDMA on this channel ran meanwhile. */
    method AddCyclesInDMA(channel: int) returns (ok: bool)
      requires Valid() && 0 <= channel < 8
      modifies this`clock
      ensures (clock, ok) == DmaTick(env, old(clock), channel)
    {
      clock := clock.(cycles := clock.cycles + env.slowOneCycle);
      ghost var start := clock;
      while clock.cycles >= clock.nextEvent
        invariant RunEvents(env, clock) == RunEvents(env, start)
        decreases clock.cycles - clock.nextEvent
      {
        // S9xDoHEventProcessing
        var e := env.event(clock.nextEvent, clock.eventsRun);
        var ran := if e.hdma.Some? then e.hdma.value else clock.hdmaRanInDMA;
        clock := Clock(clock.cycles, e.next, clock.eventsRun + 1, ran);
      }
      if HasBit(clock.hdmaRanInDMA, channel) {
        clock := clock.(hdmaRanInDMA := 0);
        return false;
      }
      clock := clock.(hdmaRanInDMA := 0);
      return true;
    }

    /** `UPDATE_COUNTERS`: one byte less to count, the A address one step
        on, and the cycle accounting. The ghost parameters name the channel
        and the clock at the start of the transfer and the bytes moved so
        far; the caller clears the DMA flags when the transfer stops. */
    method UpdateCounters(ch: int, inc: Inc, ghost d: Channel, ghost clock0: Clock, ghost j: nat)
      returns (ok: bool)
      requires Valid() && 0 <= ch < 8
      requires dma[ch] == Stepped(d, inc, j)
      requires DmaSteps(env, clock0, ch, j) == Outcome(j, true, clock)
      modifies this`clock, dma
      ensures dma[ch] == Stepped(d, inc, j + 1)
      ensures forall e :: 0 <= e < 8 && e != ch ==> dma[e] == old(dma[e])
      ensures DmaSteps(env, clock0, ch, j + 1) == Outcome(j + 1, ok, clock)
    {
      SteppedNext(d, inc, j);
      DmaStepsNext(env, clock0, ch, j, clock);
      dma[ch] := dma[ch].(countOrIndirect := (dma[ch].countOrIndirect - 1) % 0x1_0000,
                          aAddress := (dma[ch].aAddress + inc) % 0x1_0000);
      ok := AddCyclesInDMA(ch);
    }

    /** The byte loop of the invalid DMA: `UPDATE_COUNTERS`-style steps
        that move nothing, until the count runs out or an HDMA on the
        channel stops the transfer. */
    method CountDown(ch: int, n: nat, ghost d: Channel, ghost clock0: Clock) returns (ok: bool)
      requires Valid() && 0 <= ch < 8 && dma[ch] == d && clock == clock0
      modifies this`clock, dma
      ensures var o := DmaSteps(env, clock0, ch, n);
        && ok == o.completed && clock == o.clock
        && dma[ch] == Stepped(d, 1, o.steps)
      ensures forall e :: 0 <= e < 8 && e != ch ==> dma[e] == old(dma[e])
    {
      var c := n;
      ghost var j := 0;
      ok := true;
      while ok && c > 0
        invariant 0 <= c <= n && j == n - c
        invariant dma[ch] == Stepped(d, 1, j)
        invariant forall e :: 0 <= e < 8 && e != ch ==> dma[e] == old(dma[e])
        invariant DmaSteps(env, clock0, ch, j) == Outcome(j, ok, clock)
      {
        c := c - 1;
        ok := UpdateCounters(ch, 1, d, clock0, j);
        j := j + 1;
      }
      if !ok {
        DmaStepsStopped(env, clock0, ch, j, n);
      }
    }

    /** The invalid WRAM-to-$2180 DMA: no byte moves, but the count runs
        down, `AAddress` goes up by one per byte and every byte costs its
        cycles. */
    method InvalidTransfer(ch: int) returns (ok: bool)
      requires Valid() && 0 <= ch < 8 && InvalidDma(dma[ch])
      modifies this`clock, this`cpu, dma
      ensures var o := DmaSteps(env, old(clock).(cycles := old(clock).cycles + env.slowOneCycle), ch,
                                DmaCount(old(dma[ch]).countOrIndirect));
        && ok == o.completed && clock == o.clock
        && dma[ch] == Stepped(old(dma[ch]), 1, o.steps)
      ensures forall e :: 0 <= e < 8 && e != ch ==> dma[e] == old(dma[e])
      ensures cpu == old(cpu).(inDMA := false, inDMAorHDMA := false, currentChannel := -1)
    {
      var d := dma[ch];
      clock := clock.(cycles := clock.cycles + env.slowOneCycle);
      ok := CountDown(ch, DmaCount(d.countOrIndirect), d, clock);
      cpu := cpu.(inDMA := false, inDMAorHDMA := false, currentChannel := -1);
    }

    /** The end of `S9xDoDMA` for CPU flags cpu0 and NMI trigger position
        nmi0 before it: the DMA flags cleared, and after a transfer that
        ran to its end a pending NMI moved to `NMIDMADelay` cycles after
        the DMA. */
    ghost predicate DmaEnd(cpu0: CpuFlags, nmi0: int, ok: bool)
      reads this`cpu, this`nmiTriggerPos, this`clock
    {
      && cpu == cpu0.(inDMA := false, inDMAorHDMA := false, inWRAMDMAorHDMA := false, currentChannel := -1)
      && nmiTriggerPos == if ok && cpu0.nmiPending && nmi0 != 0xffff then clock.cycles + env.nmiDmaDelay else nmi0
    }

    /** The shared end of both transfer directions: on success the NMI
        reschedule of `S9xDoDMA`, in every case the DMA flags cleared (the
        failure path clears them inside `UPDATE_COUNTERS`). */
    method EndDma(ok: bool)
      modifies this`cpu, this`nmiTriggerPos
      ensures DmaEnd(old(cpu), old(nmiTriggerPos), ok)
    {
      if ok && cpu.nmiPending && nmiTriggerPos != 0xffff {
        nmiTriggerPos := clock.cycles + env.nmiDmaDelay;
      }
      cpu := cpu.(inDMA := false, inDMAorHDMA := false, inWRAMDMAorHDMA := false, currentChannel := -1);
    }

    /** The state after j bytes of a forward DMA on channel ch that began
        with channel record d, clock clock0 and B-bus trace trace0; `going`
        is false once an HDMA on the channel has cut the transfer short. */
    ghost predicate ForwardAt(ch: int, d: Channel, p: Plan, clock0: Clock, trace0: seq<PpuWrite>,
                              j: nat, going: bool)
      reads this`mem, this`clock, this`ppuTrace, this`vramFullGraphic, dma
    {
      && Valid() && 0 <= ch < 8
      && dma[ch] == Stepped(d, p.inc, j)
      && DmaSteps(env, clock0, ch, j) == Outcome(j, going, clock)
      && ppuTrace == trace0 + ForwardWrites(env, mem, d, p, vramFullGraphic, j)
    }

    /** The B-bus side of one forward byte: read it from the decode buffer
        or the A bus and hand it to its register. */
    method EmitForward(ch: int, p: Plan, fast: bool, pos: Word, b: nat, ghost d: Channel,
                       ghost trace0: seq<PpuWrite>, ghost j: nat)
      requires Valid() && 0 <= ch < 8 && dma[ch] == Stepped(d, p.inc, j)
      requires ppuTrace == trace0 + ForwardWrites(env, mem, d, p, vramFullGraphic, j)
      requires fast == FastAt(env, d, p, j) && cpu.inWRAMDMAorHDMA == WramAt(env, d, p, j)
      requires Cursor(d, p, j, b, pos)
      modifies this`ppuTrace
      ensures ppuTrace == trace0 + ForwardWrites(env, mem, d, p, vramFullGraphic, j + 1)
    {
      var c := dma[ch];
      ForwardOutAt(env, mem, d, p, vramFullGraphic, j, c, b, pos, fast, cpu.inWRAMDMAorHDMA);
      var work := if p.sdd1 then env.sdd1Buffer[pos] else mem[c.aBank * 0x1_0000 + pos];
      ppuTrace := ppuTrace + PpuOut(c.bAddress, c.transferMode, DmaPattern(c.transferMode)[b], fast,
                                    cpu.inWRAMDMAorHDMA, vramFullGraphic, work);
      AppendAssoc(trace0, ForwardWrites(env, mem, d, p, vramFullGraphic, j),
                  ForwardOut(env, mem, d, p, vramFullGraphic, j));
    }

    /** The B-bus half of one forward byte, with the loop's cursor moved
        on to the next byte. */
    method EmitStep(ch: int, p: Plan, fast: bool, pos: Word, b: nat,
                    ghost d: Channel, ghost trace0: seq<PpuWrite>, ghost j: nat)
      returns (pos': Word, b': nat)
      requires Valid() && 0 <= ch < 8 && dma[ch] == Stepped(d, p.inc, j)
      requires ppuTrace == trace0 + ForwardWrites(env, mem, d, p, vramFullGraphic, j)
      requires fast == FastAt(env, d, p, j) && cpu.inWRAMDMAorHDMA == WramAt(env, d, p, j)
      requires Cursor(d, p, j, b, pos)
      modifies this`ppuTrace
      ensures ppuTrace == trace0 + ForwardWrites(env, mem, d, p, vramFullGraphic, j + 1)
      ensures Cursor(d, p, j + 1, b', pos')
    {
      CursorStep(d, p, j, b, pos);
      pos' := (pos + p.inc) % 0x1_0000;
      b' := (b + 1) % |DmaPattern(dma[ch].transferMode)|;
      EmitForward(ch, p, fast, pos, b, d, trace0, j);
    }

    /** One byte of a forward DMA: read it from the source, hand it to its
        B-bus register, then `UPDATE_COUNTERS`. */
    method ForwardStep(ch: int, p: Plan, fast: bool, pos: Word, b: nat,
                       ghost d: Channel, ghost clock0: Clock, ghost trace0: seq<PpuWrite>, ghost j: nat)
      returns (ok: bool, pos': Word, b': nat)
      requires ForwardAt(ch, d, p, clock0, trace0, j, true)
      requires fast == FastAt(env, d, p, j) && cpu.inWRAMDMAorHDMA == WramAt(env, d, p, j)
      requires Cursor(d, p, j, b, pos)
      modifies this`clock, this`ppuTrace, dma
      ensures ForwardAt(ch, d, p, clock0, trace0, j + 1, ok)
      ensures Cursor(d, p, j + 1, b', pos')
      ensures forall e :: 0 <= e < 8 && e != ch ==> dma[e] == old(dma[e])
    {
      pos', b' := EmitStep(ch, p, fast, pos, b, d, trace0, j);
      ok := UpdateCounters(ch, p.inc, d, clock0, j);
    }

    /** The bytes of one chunk, all on the same path: the inner loop of the
        forward transfer. Returns the number of bytes moved so far. */
    method ForwardChunk(ch: int, p: Plan, fast: bool, ghost inWram: bool, count: nat, pos: Word, b: nat,
                        ghost d: Channel, ghost clock0: Clock, ghost trace0: seq<PpuWrite>, ghost j0: nat)
      returns (ok: bool, pos': Word, b': nat, ghost j: nat)
      requires ForwardAt(ch, d, p, clock0, trace0, j0, true)
      requires count >= 1
      requires cpu.inWRAMDMAorHDMA == inWram
      requires forall i :: j0 <= i < j0 + count ==> FastAt(env, d, p, i) == fast && WramAt(env, d, p, i) == inWram
      requires Cursor(d, p, j0, b, pos)
      modifies this`clock, this`ppuTrace, dma
      ensures j0 < j <= j0 + count && (ok ==> j == j0 + count)
      ensures ForwardAt(ch, d, p, clock0, trace0, j, ok)
      ensures Cursor(d, p, j, b', pos')
      ensures forall e :: 0 <= e < 8 && e != ch ==> dma[e] == old(dma[e])
    {
      var k := count;
      pos', b', j := pos, b, j0;
      ok := true;
      while ok && k > 0
        invariant j + k == j0 + count && (j > j0 || (ok && k == count))
        invariant ForwardAt(ch, d, p, clock0, trace0, j, ok)
        invariant Cursor(d, p, j, b', pos')
        invariant forall e :: 0 <= e < 8 && e != ch ==> dma[e] == old(dma[e])
      {
        ok, pos', b' := ForwardStep(ch, p, fast, pos', b', d, clock0, trace0, j);
        j, k := j + 1, k - 1;
      }
    }

    /** The set-up of the next chunk after a whole one: a full block, and
        the block's path, whether it is directly mapped
        (`S9xGetBasePointer` is not null) and whether it lies in WRAM. */
    method NextChunk(ch: int, p: Plan, ghost d: Channel, ghost j: nat, ghost rem: nat, ghost count: nat,
                     ghost fast: bool, ghost inWram: bool, ghost b: nat, ghost pos: int,
                     ghost j': nat, ghost b': nat, ghost pos': int)
      returns (count': nat, fast': bool, inWram': bool)
      requires Valid() && 0 <= ch < 8 && dma[ch] == Stepped(d, p.inc, j')
      requires ChunkCursor(env, d, p, j, rem, count, fast, inWram, b, pos) && count < rem && j' == j + count
      requires Cursor(d, p, j', b', pos')
      ensures ChunkCursor(env, d, p, j', rem - count, count', fast', inWram', b', pos')
    {
      ChunkCursorNext(env, d, p, j, rem, count, fast, inWram, b, pos, j', b', pos');
      ChunkUniform(env, d, p, j', 0);
      var c := dma[ch];
      fast' := env.mapped(c.aBank * 0x1_0000 + c.aAddress);
      count' := BlockSize;
      inWram' := !p.sdd1 && WramSide(c.aBank, c.aAddress);
    }

    /** The set-up of the first chunk: the rest of the block in the
        direction of travel (the whole count for a fixed address or the
        decode buffer) and its path. */
    method FirstChunkOf(ch: int, p: Plan) returns (count: nat, pos: Word, fast: bool, inWram: bool)
      requires Valid() && 0 <= ch < 8
      requires p.n >= 1 && (p.sdd1 ==> dma[ch].aAddressFixed)
      ensures ChunkCursor(env, dma[ch], p, 0, p.n, count, fast, inWram, 0, pos)
    {
      var d := dma[ch];
      var bs := BlockSize;
      count := if d.aAddressFixed then p.n
               else if d.aAddressDecrement then d.aAddress % bs + 1
               else bs - d.aAddress % bs;
      pos := d.aAddress;
      fast := env.mapped(d.aBank * 0x1_0000 + d.aAddress);
      if p.sdd1 {
        fast, pos, count := true, 0, p.n;
      }
      inWram := !p.sdd1 && WramSide(d.aBank, d.aAddress);
      ChunkUniform(env, d, p, 0, 0);
    }

    /** The state at the start of a chunk of a forward DMA: the bytes so far
        (`ForwardAt`), the position within the chunk structure
        (`ChunkCursor`), and the CPU flags as they were but for
        `InWRAMDMAorHDMA`. */
    ghost predicate ForwardLoop(ch: int, d: Channel, p: Plan, clock0: Clock, trace0: seq<PpuWrite>,
                                cpu0: CpuFlags, j: nat, rem: nat, count: nat, fast: bool, inWram: bool,
                                b: nat, pos: int)
      reads this`mem, this`clock, this`ppuTrace, this`vramFullGraphic, this`cpu, dma
    {
      && ForwardAt(ch, d, p, clock0, trace0, j, true)
      && ChunkCursor(env, d, p, j, rem, count, fast, inWram, b, pos)
      && cpu == cpu0.(inWRAMDMAorHDMA := cpu.inWRAMDMAorHDMA)
    }

    /** One pass of the chunk loop of the forward transfer: clip the chunk
        to the bytes left, set `InWRAMDMAorHDMA` and move the chunk. */
    method ForwardRound(ch: int, p: Plan, rem: nat, count: nat, fast: bool, inWram: bool, pos: Word, b: nat,
                        ghost d: Channel, ghost clock0: Clock, ghost trace0: seq<PpuWrite>,
                        ghost cpu0: CpuFlags, ghost j: nat)
      returns (going: bool, rem': nat, pos': Word, b': nat, ghost j': nat)
      requires ForwardLoop(ch, d, p, clock0, trace0, cpu0, j, rem, count, fast, inWram, b, pos)
      modifies this`clock, this`cpu, this`ppuTrace, dma
      ensures forall e :: 0 <= e < 8 && e != ch ==> dma[e] == old(dma[e])
      ensures rem' == (if count > rem then 0 else rem - count)
      ensures j < j' <= p.n && (going ==> j' == j + rem - rem')
      ensures ForwardAt(ch, d, p, clock0, trace0, j', going)
      ensures Cursor(d, p, j', b', pos')
      ensures cpu == cpu0.(inWRAMDMAorHDMA := inWram)
    {
      var len := if count > rem then rem else count;
      rem' := rem - len;
      cpu := cpu.(inWRAMDMAorHDMA := inWram);
      ChunkCursorUniform(env, d, p, j, rem, count, fast, inWram, b, pos, len);
      going, pos', b', j' := ForwardChunk(ch, p, fast, inWram, len, pos, b, d, clock0, trace0, j);
    }

    /** The end state of a forward DMA of p.n bytes on channel ch that
        began with channel record d, clock clock0, B-bus trace trace0 and
        CPU flags cpu0: the bytes the clock let through are moved; a
        transfer cut short clears the DMA flags. */
    ghost predicate ForwardDone(ch: int, d: Channel, p: Plan, clock0: Clock, trace0: seq<PpuWrite>,
                                cpu0: CpuFlags, nmi0: int, ok: bool)
      reads this`mem, this`clock, this`ppuTrace, this`vramFullGraphic, this`cpu, this`nmiTriggerPos, dma
    {
      && Valid() && 0 <= ch < 8
      && var o := DmaSteps(env, clock0, ch, p.n);
      && ok == o.completed && clock == o.clock
      && dma[ch] == Stepped(d, p.inc, o.steps)
      && ppuTrace == trace0 + ForwardWrites(env, mem, d, p, vramFullGraphic, o.steps)
      && DmaEnd(cpu0, nmi0, ok)
    }

    /** The exit of the chunk loop: the end of `S9xDoDMA`; when an HDMA
        cut the transfer short the rest of the count is never moved. */
    method FinishForward(ch: int, p: Plan, going: bool, ghost d: Channel, ghost clock0: Clock,
                         ghost trace0: seq<PpuWrite>, ghost cpu0: CpuFlags, ghost nmi0: int, ghost j: nat)
      requires ForwardAt(ch, d, p, clock0, trace0, j, going)
      requires j <= p.n && (going ==> j == p.n)
      requires cpu == cpu0.(inWRAMDMAorHDMA := cpu.inWRAMDMAorHDMA) && nmiTriggerPos == nmi0
      modifies this`cpu, this`nmiTriggerPos
      ensures ForwardDone(ch, d, p, clock0, trace0, cpu0, nmi0, going)
    {
      if !going {
        DmaStepsStopped(env, clock0, ch, j, p.n);
      }
      EndDma(going);
    }

    /** The chunk loop of the forward transfer, from the first chunk to the
        last byte or to the HDMA that stops it. */
    method ForwardChunks(ch: int, p: Plan, count: nat, pos: Word, fast: bool, inWram: bool,
                         ghost d: Channel, ghost clock0: Clock, ghost trace0: seq<PpuWrite>,
                         ghost cpu0: CpuFlags)
      returns (going: bool)
      requires ForwardLoop(ch, d, p, clock0, trace0, cpu0, 0, p.n, count, fast, inWram, 0, pos)
      modifies this`clock, this`cpu, this`ppuTrace, this`nmiTriggerPos, dma
      ensures forall e :: 0 <= e < 8 && e != ch ==> dma[e] == old(dma[e])
      ensures ForwardDone(ch, d, p, clock0, trace0, cpu0, old(nmiTriggerPos), going)
    {
      var rem: nat, count: nat, pos: Word, fast, inWram := p.n, count, pos, fast, inWram;
      var b: nat := 0;
      ghost var j: nat := 0;
      while true
        invariant ForwardLoop(ch, d, p, clock0, trace0, cpu0, j, rem, count, fast, inWram, b, pos)
        invariant forall e :: 0 <= e < 8 && e != ch ==> dma[e] == old(dma[e])
        invariant nmiTriggerPos == old(nmiTriggerPos)
        decreases rem
      {
        var rem': nat, pos': Word, b': nat;
        ghost var j': nat;
        going, rem', pos', b', j' := ForwardRound(ch, p, rem, count, fast, inWram, pos, b, d, clock0, trace0, cpu0, j);
        if !going || rem' == 0 {
          FinishForward(ch, p, going, d, clock0, trace0, cpu0, old(nmiTriggerPos), j');
          return;
        }
        assert count < rem && j' == j + count;
        count, fast, inWram := NextChunk(ch, p, d, j, rem, count, fast, inWram, b, pos, j', b', pos');
        rem, pos, b, j := rem', pos', b', j';
      }
    }

    /** The CPU-to-PPU transfer of `S9xDoDMA` and the end of it: chunk by
        chunk (the rest of the memory block, then whole blocks), each on
        the fast or the slow path as its block is mapped, with
        `InWRAMDMAorHDMA` set per chunk. The caller has charged the
        channel's start-up cycles. */
    method ForwardTransfer(ch: int, p: Plan) returns (ok: bool)
      requires Valid() && 0 <= ch < 8
      requires p.n >= 1 && (p.sdd1 ==> dma[ch].aAddressFixed)
      modifies this`clock, this`cpu, this`ppuTrace, this`nmiTriggerPos, dma
      ensures var o := DmaSteps(env, old(clock), ch, p.n);
        && ok == o.completed && clock == o.clock
        && dma[ch] == Stepped(old(dma[ch]), p.inc, o.steps)
        && ppuTrace == old(ppuTrace) + ForwardWrites(env, mem, old(dma[ch]), p, vramFullGraphic, o.steps)
      ensures forall e :: 0 <= e < 8 && e != ch ==> dma[e] == old(dma[e])
      ensures DmaEnd(old(cpu), old(nmiTriggerPos), ok)
    {
      var d := dma[ch];
      ghost var clock0, trace0, cpu0 := clock, ppuTrace, cpu;
      var count: nat, pos: Word, fast: bool, inWram: bool := FirstChunkOf(ch, p);
      assert ForwardAt(ch, d, p, clock0, trace0, 0, true);
      ok := ForwardChunks(ch, p, count, pos, fast, inWram, d, clock0, trace0, cpu0);
      assert ForwardDone(ch, d, p, clock0, trace0, cpu0, old(nmiTriggerPos), ok);
    }

    /** The state after j bytes of a reverse DMA on channel ch that began
        with channel record d, clock clock0, memory mem0 and r0 PPU reads. */
    ghost predicate ReverseAt(ch: int, d: Channel, p: Plan, clock0: Clock, mem0: seq<Byte>, r0: nat,
                              j: nat, going: bool)
      reads this`mem, this`clock, this`ppuReads, dma
    {
      && Valid() && 0 <= ch < 8 && |mem0| == 0x100_0000
      && dma[ch] == Stepped(d, p.inc, j)
      && DmaSteps(env, clock0, ch, j) == Outcome(j, going, clock)
      && mem == ReverseMem(env, mem0, d, p, r0, j)
      && ppuReads == r0 + j
    }

    /** One reverse byte: on the really-slow path `InWRAMDMAorHDMA` from
        the address, then `Work = S9xGetPPU(0x2100 + BAddress + offset)`
        and `S9xSetByte(Work, (ABank << 16) + AAddress)`; b is the byte's
        phase in the mode's register pattern, b' the next byte's. */
    method ReverseByte(ch: int, p: Plan, slow: bool, b: nat, ghost d: Channel, ghost mem0: seq<Byte>,
                       ghost r0: nat, ghost cpu0: CpuFlags, ghost j: nat)
      returns (b': nat)
      requires Valid() && 0 <= ch < 8 && |mem0| == 0x100_0000
      requires dma[ch] == Stepped(d, p.inc, j) && b == j % |DmaPattern(d.transferMode)|
      requires mem == ReverseMem(env, mem0, d, p, r0, j) && ppuReads == r0 + j
      requires slow == ReallySlowReverse(d) && cpu == ReverseCpu(cpu0, d, p, j)
      modifies this`mem, this`ppuReads, this`cpu
      ensures Valid()
      ensures mem == ReverseMem(env, mem0, d, p, r0, j + 1) && ppuReads == r0 + j + 1
      ensures b' == (j + 1) % |DmaPattern(d.transferMode)|
      ensures cpu == ReverseCpu(cpu0, d, p, j + 1)
    {
      var c := dma[ch];
      if slow {
        cpu := cpu.(inWRAMDMAorHDMA := c.aAddress < 0x2000);
      }
      ReverseByteAt(env, d, p, r0, j, c, b);
      var work := env.ppuRead(0x2100 + c.bAddress + DmaPattern(c.transferMode)[b], ppuReads);
      ppuReads := ppuReads + 1;
      mem := mem[c.aBank * 0x1_0000 + c.aAddress := work];
      b' := (b + 1) % |DmaPattern(c.transferMode)|;
      ModAddMod(j, 1, |DmaPattern(d.transferMode)|);
    }

    /** The reverse loop after j bytes: the transfer state, the pattern
        phase b, and the CPU flags cpu0 with `InWRAMDMAorHDMA` as the last
        byte set it (on the faster path as it was set before the loop). */
    ghost predicate ReverseLoopAt(ch: int, d: Channel, p: Plan, clock0: Clock, mem0: seq<Byte>, r0: nat,
                                  cpu0: CpuFlags, slow: bool, j: nat, going: bool, b: nat)
      reads this`mem, this`clock, this`ppuReads, this`cpu, dma
    {
      && ReverseAt(ch, d, p, clock0, mem0, r0, j, going)
      && slow == ReallySlowReverse(d) && b == j % |DmaPattern(d.transferMode)|
      && cpu == ReverseCpu(cpu0, d, p, j)
    }

    /** One step of the reverse loop: the byte and `UPDATE_COUNTERS`. */
    method ReverseStep(ch: int, p: Plan, slow: bool, b: nat, ghost d: Channel, ghost clock0: Clock,
                       ghost mem0: seq<Byte>, ghost r0: nat, ghost cpu0: CpuFlags, ghost j: nat)
      returns (ok: bool, b': nat)
      requires ReverseLoopAt(ch, d, p, clock0, mem0, r0, cpu0, slow, j, true, b)
      modifies this`mem, this`ppuReads, this`clock, this`cpu, dma
      ensures ReverseLoopAt(ch, d, p, clock0, mem0, r0, cpu0, slow, j + 1, ok, b')
      ensures forall e :: 0 <= e < 8 && e != ch ==> dma[e] == old(dma[e])
    {
      b' := ReverseByte(ch, p, slow, b, d, mem0, r0, cpu0, j);
      ok := UpdateCounters(ch, p.inc, d, clock0, j);
    }

    /** The end state of a reverse DMA of p.n bytes on channel ch that
        began with channel record d, clock clock0, memory mem0, r0 PPU
        reads, CPU flags cpu0 and NMI trigger position nmi0. */
    ghost predicate ReverseDone(ch: int, d: Channel, p: Plan, clock0: Clock, mem0: seq<Byte>, r0: nat,
                                cpu0: CpuFlags, nmi0: int, ok: bool)
      reads this`mem, this`clock, this`ppuReads, this`cpu, this`nmiTriggerPos, dma
    {
      && Valid() && 0 <= ch < 8 && |mem0| == 0x100_0000
      && var o := DmaSteps(env, clock0, ch, p.n);
      && ok == o.completed && clock == o.clock
      && dma[ch] == Stepped(d, p.inc, o.steps)
      && mem == ReverseMem(env, mem0, d, p, r0, o.steps)
      && ppuReads == r0 + o.steps
      && DmaEnd(cpu0, nmi0, ok)
    }

    /** The byte loop of the reverse transfer, until the count runs out or
        an HDMA on the channel stops it. The faster path has set
        `InWRAMDMAorHDMA` in cpu0 already. */
    method ReverseLoop(ch: int, p: Plan, slow: bool, ghost d: Channel, ghost clock0: Clock,
                       ghost mem0: seq<Byte>, ghost r0: nat, ghost cpu0: CpuFlags)
      returns (ok: bool)
      requires ReverseAt(ch, d, p, clock0, mem0, r0, 0, true) && p.n >= 1
      requires slow == ReallySlowReverse(d) && cpu == cpu0
      modifies this`mem, this`ppuReads, this`clock, this`cpu, this`nmiTriggerPos, dma
      ensures ReverseDone(ch, d, p, clock0, mem0, r0, cpu0, old(nmiTriggerPos), ok)
      ensures forall e :: 0 <= e < 8 && e != ch ==> dma[e] == old(dma[e])
    {
      var k := p.n;
      var b: nat := 0;
      ghost var j: nat := 0;
      ok := true;
      while ok && k > 0
        invariant 0 <= k <= p.n && j == p.n - k
        invariant ReverseLoopAt(ch, d, p, clock0, mem0, r0, cpu0, slow, j, ok, b)
        invariant forall e :: 0 <= e < 8 && e != ch ==> dma[e] == old(dma[e])
        invariant nmiTriggerPos == old(nmiTriggerPos)
      {
        ok, b := ReverseStep(ch, p, slow, b, d, clock0, mem0, r0, cpu0, j);
        k := k - 1;
        j := j + 1;
      }
      ReverseFinish(ch, p, ok, d, clock0, mem0, r0, cpu0, old(nmiTriggerPos), j);
    }

    /** The exit of the reverse loop: the end of `S9xDoDMA`; when an HDMA
        cut the transfer short the rest of the count is never moved. */
    method ReverseFinish(ch: int, p: Plan, going: bool, ghost d: Channel, ghost clock0: Clock,
                         ghost mem0: seq<Byte>, ghost r0: nat, ghost cpu0: CpuFlags, ghost nmi0: int,
                         ghost j: nat)
      requires ReverseAt(ch, d, p, clock0, mem0, r0, j, going)
      requires j <= p.n && (going ==> j == p.n)
      requires cpu == ReverseCpu(cpu0, d, p, j) && nmiTriggerPos == nmi0
      modifies this`cpu, this`nmiTriggerPos
      ensures ReverseDone(ch, d, p, clock0, mem0, r0, cpu0, nmi0, going)
    {
      if !going {
        DmaStepsStopped(env, clock0, ch, j, p.n);
      }
      EndDma(going);
    }

    /** The PPU-to-CPU transfer of `S9xDoDMA` and the end of it: byte by
        byte, each read from its B-bus register and stored at the channel's
        A address, on the really-slow path with `InWRAMDMAorHDMA` set per
        byte, otherwise set once from the bank. The caller has charged the
        channel's start-up cycles. */
    method ReverseTransfer(ch: int, p: Plan) returns (ok: bool)
      requires Valid() && 0 <= ch < 8 && p.n >= 1
      modifies this`clock, this`cpu, this`mem, this`ppuReads, this`nmiTriggerPos, dma
      ensures var o := DmaSteps(env, old(clock), ch, p.n);
        && ok == o.completed && clock == o.clock
        && dma[ch] == Stepped(old(dma[ch]), p.inc, o.steps)
        && mem == ReverseMem(env, old(mem), old(dma[ch]), p, old(ppuReads), o.steps)
        && ppuReads == old(ppuReads) + o.steps
      ensures forall e :: 0 <= e < 8 && e != ch ==> dma[e] == old(dma[e])
      ensures DmaEnd(old(cpu), old(nmiTriggerPos), ok)
    {
      var d := dma[ch];
      ghost var clock0, mem0, r0 := clock, mem, ppuReads;
      var slow := 0x7C < d.bAddress <= 0x83 && d.aBank / 0x40 % 2 == 0;
      if !slow {
        cpu := cpu.(inWRAMDMAorHDMA := d.aBank == 0x7E || d.aBank == 0x7F);
      }
      ghost var cpu1 := cpu;
      assert ReverseAt(ch, d, p, clock0, mem0, r0, 0, true);
      ok := ReverseLoop(ch, p, slow, d, clock0, mem0, r0, cpu1);
      assert ReverseDone(ch, d, p, clock0, mem0, r0, cpu1, old(nmiTriggerPos), ok);
    }

    /** What a DMA of plan p on channel ch, begun with channel record d,
        clock clock0 (start-up cycles charged), memory mem0, r0 PPU reads
        and B-bus trace trace0, has done once it returns ok: the bytes the
        clock let through are counted off and, unless the DMA is the
        invalid kind, moved: from the PPU into memory when it is a reverse
        transfer, onto the B bus otherwise. */
    ghost predicate Moved(ch: int, d: Channel, p: Plan, clock0: Clock, mem0: seq<Byte>, r0: nat,
                          trace0: seq<PpuWrite>, ok: bool)
      reads this`mem, this`clock, this`ppuReads, this`ppuTrace, this`vramFullGraphic, dma
    {
      && Valid() && 0 <= ch < 8 && |mem0| == 0x100_0000
      && var o := DmaSteps(env, clock0, ch, p.n);
      && ok == o.completed && clock == o.clock
      && dma[ch] == Stepped(d, p.inc, o.steps)
      && mem == (if !p.invalid && d.reverseTransfer then ReverseMem(env, mem0, d, p, r0, o.steps) else mem0)
      && ppuReads == r0 + (if !p.invalid && d.reverseTransfer then o.steps else 0)
      && ppuTrace == trace0 + (if p.invalid || d.reverseTransfer then []
                               else ForwardWrites(env, mem0, d, p, vramFullGraphic, o.steps))
    }

    /** The byte transfer of a valid DMA, after its start-up cycles: CPU to
        PPU or PPU to CPU as `ReverseTransfer` says. */
    method MoveBytes(ch: int, p: Plan, ghost d: Channel, ghost pl: Plan, ghost clock0: Clock,
                     ghost mem0: seq<Byte>, ghost r0: nat, ghost trace0: seq<PpuWrite>,
                     ghost cpu0: CpuFlags, ghost nmi0: int)
      returns (ok: bool)
      requires Valid() && 0 <= ch < 8
      requires !p.invalid && p.n >= 1 && (p.sdd1 ==> dma[ch].aAddressFixed)
      requires d == dma[ch] && pl == p && clock0 == clock && mem0 == mem && r0 == ppuReads
      requires trace0 == ppuTrace && cpu0 == cpu && nmi0 == nmiTriggerPos
      modifies this`clock, this`cpu, this`mem, this`ppuReads, this`ppuTrace, this`nmiTriggerPos, dma
      ensures Moved(ch, d, pl, clock0, mem0, r0, trace0, ok)
      ensures forall e :: 0 <= e < 8 && e != ch ==> dma[e] == old(dma[e])
      ensures DmaEnd(cpu0, nmi0, ok)
    {
      if !dma[ch].reverseTransfer {
        ok := ForwardTransfer(ch, p);
      } else {
        ok := ReverseTransfer(ch, p);
      }
    }

    /** Everything `S9xDoDMA` on channel ch has done once it returns ok,
        for channel record d, S-DD1 register f, clock clock0, memory mem0,
        r0 PPU reads, B-bus trace trace0, CPU flags cpu0 and NMI trigger
        position nmi0 before it: the bytes `Moved` describes, a pending NMI
        rescheduled only after a valid DMA that ran to its end, the S-DD1
        register reset by a valid DMA on an S-DD1 cartridge, and the DMA
        flags cleared (`InWRAMDMAorHDMA` too, unless the DMA is the invalid
        kind). */
    ghost predicate DmaDone(ch: int, d: Channel, f: Byte, clock0: Clock, mem0: seq<Byte>, r0: nat,
                            trace0: seq<PpuWrite>, cpu0: CpuFlags, nmi0: int, ok: bool)
      reads this`mem, this`clock, this`ppuReads, this`ppuTrace, this`vramFullGraphic, this`cpu,
            this`nmiTriggerPos, this`fill4801, dma
    {
      && Moved(ch, d, DmaPlan(env, d, f), clock0.(cycles := clock0.cycles + env.slowOneCycle),
               mem0, r0, trace0, ok)
      && var invalid := InvalidDma(d);
      && nmiTriggerPos == (if !invalid && ok && cpu0.nmiPending && nmi0 != 0xffff
                           then clock.cycles + env.nmiDmaDelay else nmi0)
      && fill4801 == (if env.sdd1 && !invalid then 0 else f)
      && cpu == cpu0.(inDMA := false, inDMAorHDMA := false, currentChannel := -1,
                      inWRAMDMAorHDMA := invalid && cpu0.inWRAMDMAorHDMA)
    }

    /** `S9xDoDMA` for the invalid kind, after the DMA flags are set: the
        channel's start-up cycles and the count-down. The ghost parameters
        name the state before `S9xDoDMA`. */
    method InvalidDoDma(ch: int, ghost d: Channel, ghost f: Byte, ghost clock0: Clock, ghost mem0: seq<Byte>,
                        ghost r0: nat, ghost trace0: seq<PpuWrite>, ghost cpu0: CpuFlags, ghost nmi0: int)
      returns (ok: bool)
      requires Valid() && 0 <= ch < 8 && InvalidDma(dma[ch])
      requires d == dma[ch] && f == fill4801 && clock0 == clock && mem0 == mem && r0 == ppuReads
      requires trace0 == ppuTrace && nmi0 == nmiTriggerPos
      requires cpu == cpu0.(inDMA := true, inDMAorHDMA := true, currentChannel := ch)
      modifies this`clock, this`cpu, dma
      ensures DmaDone(ch, d, f, clock0, mem0, r0, trace0, cpu0, nmi0, ok)
      ensures forall e :: 0 <= e < 8 && e != ch ==> dma[e] == old(dma[e])
    {
      ok := InvalidTransfer(ch);
    }

    /** `S9xDoDMA` past the invalid-DMA check: the plan, the S-DD1 register
        reset, the channel's start-up cycles and the bytes. The ghost
        parameters name the state before `S9xDoDMA`. */
    method ValidDoDma(ch: int, ghost d: Channel, ghost f: Byte, ghost clock0: Clock, ghost mem0: seq<Byte>,
                      ghost r0: nat, ghost trace0: seq<PpuWrite>, ghost cpu0: CpuFlags, ghost nmi0: int)
      returns (ok: bool)
      requires Valid() && 0 <= ch < 8 && !InvalidDma(dma[ch])
      requires d == dma[ch] && f == fill4801 && clock0 == clock && mem0 == mem && r0 == ppuReads
      requires trace0 == ppuTrace && nmi0 == nmiTriggerPos
      requires cpu == cpu0.(inDMA := true, inDMAorHDMA := true, currentChannel := ch)
      modifies this`clock, this`cpu, this`mem, this`ppuReads, this`ppuTrace, this`nmiTriggerPos,
               this`fill4801, dma
      ensures DmaDone(ch, d, f, clock0, mem0, r0, trace0, cpu0, nmi0, ok)
      ensures forall e :: 0 <= e < 8 && e != ch ==> dma[e] == old(dma[e])
    {
      var p := DmaPlan(env, dma[ch], fill4801);
      if env.sdd1 {
        fill4801 := 0;
      }
      clock := clock.(cycles := clock.cycles + env.slowOneCycle);
      ok := MoveBytes(ch, p, d, DmaPlan(env, d, f), clock0.(cycles := clock0.cycles + env.slowOneCycle),
                      mem0, r0, trace0, cpu, nmi0);
    }

    /** `S9xDoDMA(Channel)`: one general-purpose DMA on a channel. The
        invalid WRAM-to-WRAM kind only counts down; any other moves its
        bytes in the direction `ReverseTransfer` names. Either stops early
        when an HDMA on the same channel runs in between, and the result
        says whether the transfer ran to its end. */
    method DoDma(ch: int) returns (ok: bool)
      requires Valid() && 0 <= ch < 8
      modifies this`clock, this`cpu, this`mem, this`ppuReads, this`ppuTrace, this`nmiTriggerPos,
               this`fill4801, dma
      ensures DmaDone(ch, old(dma[ch]), old(fill4801), old(clock), old(mem), old(ppuReads), old(ppuTrace),
                      old(cpu), old(nmiTriggerPos), ok)
      ensures forall e :: 0 <= e < 8 && e != ch ==> dma[e] == old(dma[e])
    {
      cpu := cpu.(inDMA := true, inDMAorHDMA := true, currentChannel := ch);
      var d := dma[ch];
      if (d.aBank == 0x7E || d.aBank == 0x7F) && d.bAddress == 0x80 && !d.reverseTransfer {
        ok := InvalidDoDma(ch, old(dma[ch]), old(fill4801), old(clock), old(mem), old(ppuReads), old(ppuTrace),
                           old(cpu), old(nmiTriggerPos));
      } else {
        ok := ValidDoDma(ch, old(dma[ch]), old(fill4801), old(clock), old(mem), old(ppuReads), old(ppuTrace),
                         old(cpu), old(nmiTriggerPos));
      }
    }

    // -------------------------------------------------------------------
    // HDMA

    /** `HDMAReadLineCount(d)`: read the header byte at channel d's table
        address and, when it starts a group of lines, the indirect address
        and a pointer to the line data. */
    method ReadLineCount(d: int) returns (more: bool)
      requires Valid() && 0 <= d < 8
      modifies this`clock, dma, hdmaPointers
      ensures var r := LineHeader(env, mem, old(dma[d]), d, hdma);
        && dma[d] == r.chan && hdmaPointers[d] == r.ptr && more == r.more
        && clock == old(clock).(cycles := old(clock).cycles + r.cycles)
      ensures forall e :: 0 <= e < 8 && e != d ==> dma[e] == old(dma[e]) && hdmaPointers[e] == old(hdmaPointers[e])
    {
      var r := LineHeader(env, mem, dma[d], d, hdma);
      clock := clock.(cycles := clock.cycles + r.cycles);
      dma[d] := r.chan;
      hdmaPointers[d] := r.ptr;
      more := r.more;
    }

    /** The 24-bit address byte k of a CPU-to-PPU line is read from on
        the given path: the really-slow path also sets `InWRAMDMAorHDMA`
        for the byte's 16-bit address. */
    method SourceOf(c: Channel, path: LinePath, k: nat) returns (a: int)
      requires k < LineBytes(c) && (path.Slow? ==> !CrossesBlock(c))
      modifies this`cpu
      ensures a == LineSource(c, path, k)
      ensures cpu == old(cpu).(inWRAMDMAorHDMA := cpu.inWRAMDMAorHDMA)
    {
      var bank := DataBank(c);
      var iaddr := DataAddr(c);
      match path {
        case ReallySlow =>
          var addr := (iaddr + k) % 0x1_0000;
          cpu := cpu.(inWRAMDMAorHDMA := WramSide(bank, addr));
          a := bank * 0x1_0000 + addr;
        case Slow =>
          InsideBlock(c, k);
          a := bank * 0x1_0000 + iaddr + k;
        case Fast(p) =>
          a := (p + k) % 0x100_0000;
      }
    }

    /** Byte k of a CPU-to-PPU line of record c, read on the given path
        and written through `S9xSetPPU` to its pattern register at
        `SLOW_ONE_CYCLE`; the really-slow path sets `InWRAMDMAorHDMA` for
        the byte's 16-bit address. */
    method SendByte(c: Channel, path: LinePath, k: nat, ghost trace0: seq<PpuWrite>, ghost clock0: Clock)
      requires Valid() && k < LineBytes(c) && (path.Slow? ==> !CrossesBlock(c))
      requires ppuTrace == trace0 + LineWrites(mem, c, path, k)
      requires clock == clock0.(cycles := clock0.cycles + k * env.slowOneCycle)
      modifies this`ppuTrace, this`clock, this`cpu
      ensures ppuTrace == trace0 + LineWrites(mem, c, path, k + 1)
      ensures clock == clock0.(cycles := clock0.cycles + (k + 1) * env.slowOneCycle)
      ensures cpu == old(cpu).(inWRAMDMAorHDMA := cpu.inWRAMDMAorHDMA)
    {
      var a := SourceOf(c, path, k);
      var w := [PpuWrite(0x2100 + c.bAddress + HdmaPattern(c.transferMode)[k], mem[a], Generic)];
      AppendAssoc(trace0, LineWrites(mem, c, path, k), w);
      ppuTrace := ppuTrace + w;
      MulNext(k, env.slowOneCycle);
      clock := clock.(cycles := clock.cycles + env.slowOneCycle);
    }

    /** The bytes of a CPU-to-PPU line of record c, in pattern order. */
    method SendLine(c: Channel, path: LinePath)
      requires Valid() && (path.Slow? ==> !CrossesBlock(c))
      modifies this`ppuTrace, this`clock, this`cpu
      ensures ppuTrace == old(ppuTrace) + LineWrites(mem, c, path, LineBytes(c))
      ensures clock == old(clock).(cycles := old(clock).cycles + LineBytes(c) * env.slowOneCycle)
      ensures cpu == old(cpu).(inWRAMDMAorHDMA := cpu.inWRAMDMAorHDMA)
    {
      var k := 0;
      while k < ModeByteCounts[c.transferMode]
        invariant 0 <= k <= LineBytes(c)
        invariant ppuTrace == old(ppuTrace) + LineWrites(mem, c, path, k)
        invariant clock == old(clock).(cycles := old(clock).cycles + k * env.slowOneCycle)
        invariant cpu == old(cpu).(inWRAMDMAorHDMA := cpu.inWRAMDMAorHDMA)
      {
        SendByte(c, path, k, old(ppuTrace), old(clock));
        k := k + 1;
      }
    }

    /** Byte k of a PPU-to-CPU line of record c: read through `S9xGetPPU`
        from its pattern register and stored with `S9xSetByte` at the
        16-bit address k after the line's data address, with
        `InWRAMDMAorHDMA` set for that address, at `SLOW_ONE_CYCLE`. */
    method ReceiveByte(c: Channel, k: nat, ghost mem0: seq<Byte>, ghost r0: nat, ghost clock0: Clock)
      requires Valid() && k < LineBytes(c) && |mem0| == 0x100_0000
      requires mem == LineStores(env, mem0, c, r0, k) && ppuReads == r0 + k
      requires clock == clock0.(cycles := clock0.cycles + k * env.slowOneCycle)
      modifies this`mem, this`ppuReads, this`clock, this`cpu
      ensures Valid()
      ensures mem == LineStores(env, mem0, c, r0, k + 1) && ppuReads == r0 + k + 1
      ensures clock == clock0.(cycles := clock0.cycles + (k + 1) * env.slowOneCycle)
      ensures cpu == old(cpu).(inWRAMDMAorHDMA := cpu.inWRAMDMAorHDMA)
    {
      var bank := DataBank(c);
      var addr := (DataAddr(c) + k) % 0x1_0000;
      cpu := cpu.(inWRAMDMAorHDMA := WramSide(bank, addr));
      var v := env.ppuRead(0x2100 + c.bAddress + HdmaPattern(c.transferMode)[k], ppuReads);
      assert v == LineValue(env, c, r0, k) && bank * 0x1_0000 + addr == LineTarget(c, k);
      ppuReads := ppuReads + 1;
      mem := mem[bank * 0x1_0000 + addr := v];
      MulNext(k, env.slowOneCycle);
      clock := clock.(cycles := clock.cycles + env.slowOneCycle);
    }

    /** The bytes of a PPU-to-CPU line of record c, in pattern order. */
    method ReceiveLine(c: Channel)
      requires Valid()
      modifies this`mem, this`ppuReads, this`clock, this`cpu
      ensures Valid()
      ensures mem == LineStores(env, old(mem), c, old(ppuReads), LineBytes(c))
      ensures ppuReads == old(ppuReads) + LineBytes(c)
      ensures clock == old(clock).(cycles := old(clock).cycles + LineBytes(c) * env.slowOneCycle)
      ensures cpu == old(cpu).(inWRAMDMAorHDMA := cpu.inWRAMDMAorHDMA)
    {
      var k := 0;
      while k < ModeByteCounts[c.transferMode]
        invariant 0 <= k <= LineBytes(c)
        invariant Valid()
        invariant mem == LineStores(env, old(mem), c, old(ppuReads), k)
        invariant ppuReads == old(ppuReads) + k
        invariant clock == old(clock).(cycles := old(clock).cycles + k * env.slowOneCycle)
        invariant cpu == old(cpu).(inWRAMDMAorHDMA := cpu.inWRAMDMAorHDMA)
      {
        ReceiveByte(c, k, old(mem), old(ppuReads), old(clock));
        k := k + 1;
      }
    }

    /** A CPU-to-PPU line of channel d with record c, whose pointer p1 has
        been fetched: the really-slow path when the line runs into the next
        memory block (dropping the pointer), otherwise the slow path
        without a pointer or the fast path through it (moving it past the
        line), with `InWRAMDMAorHDMA` set once for the data address. */
    method SendChannelLine(d: int, c: Channel, ghost p1: Option<int>, ghost s0: Bus)
      requires Valid() && 0 <= d < 8 && hdmaPointers[d] == p1
      requires s0 == Bus(mem, ppuReads, ppuTrace, clock.cycles)
      modifies this`cpu, this`ppuTrace, this`clock, hdmaPointers
      ensures hdmaPointers[d] == if CrossesBlock(c) then None else if p1.Some? then Some(p1.value + LineBytes(c)) else None
      ensures forall e :: 0 <= e < 8 && e != d ==> hdmaPointers[e] == old(hdmaPointers[e])
      ensures Bus(mem, ppuReads, ppuTrace, clock.cycles)
              == Bus(s0.mem, s0.readCount, s0.trace + LineWrites(s0.mem, c, PathOf(c, p1), LineBytes(c)),
                     s0.cycles + LineBytes(c) * env.slowOneCycle)
      ensures clock == old(clock).(cycles := clock.cycles)
      ensures cpu == old(cpu).(inWRAMDMAorHDMA := cpu.inWRAMDMAorHDMA)
    {
      var bank := DataBank(c);
      var iaddr := DataAddr(c);
      if iaddr % BlockSize + ModeByteCounts[c.transferMode] >= BlockSize {
        hdmaPointers[d] := None;
        SendLine(c, ReallySlow);
      } else {
        cpu := cpu.(inWRAMDMAorHDMA := WramSide(bank, iaddr));
        var q := hdmaPointers[d];
        if q.None? {
          SendLine(c, Slow);
        } else {
          SendLine(c, Fast(q.value));
          hdmaPointers[d] := Some(q.value + ModeByteCounts[c.transferMode]);
        }
      }
    }

    /** A PPU-to-CPU line of channel d with record c: the pointer is
        dropped and the bytes are stored one by one. */
    method ReceiveChannelLine(d: int, c: Channel, ghost s0: Bus)
      requires Valid() && 0 <= d < 8
      requires s0 == Bus(mem, ppuReads, ppuTrace, clock.cycles)
      modifies this`cpu, this`mem, this`ppuReads, this`clock, hdmaPointers
      ensures Valid()
      ensures hdmaPointers[d] == None
      ensures forall e :: 0 <= e < 8 && e != d ==> hdmaPointers[e] == old(hdmaPointers[e])
      ensures Bus(mem, ppuReads, ppuTrace, clock.cycles)
              == Bus(LineStores(env, s0.mem, c, s0.readCount, LineBytes(c)), s0.readCount + LineBytes(c),
                     s0.trace, s0.cycles + LineBytes(c) * env.slowOneCycle)
      ensures clock == old(clock).(cycles := clock.cycles)
      ensures cpu == old(cpu).(inWRAMDMAorHDMA := cpu.inWRAMDMAorHDMA)
    {
      hdmaPointers[d] := None;
      ReceiveLine(c);
    }

    /** The first loop of `S9xDoHDMA` for an enabled channel d with record
        c and cached pointer ptr: fetch a pointer if none is cached; when
        the channel transfers on this line, apply the Uniracers OAM
        fix-up and move the line's bytes in the channel's direction. */
    method HdmaLine(d: int, ghost c: Channel, ghost ptr: Option<int>, ghost s0: Bus)
      requires Valid() && 0 <= d < 8 && dma[d] == c && hdmaPointers[d] == ptr
      requires s0 == Bus(mem, ppuReads, ppuTrace, clock.cycles)
      modifies this`cpu, this`oamAddr, this`oamFlip, this`mem, this`ppuReads, this`ppuTrace, this`clock,
               hdmaPointers
      ensures Valid()
      ensures hdmaPointers[d] == LinePtrOut(env, c, ptr)
      ensures forall e :: 0 <= e < 8 && e != d ==> hdmaPointers[e] == old(hdmaPointers[e])
      ensures Bus(mem, ppuReads, ppuTrace, clock.cycles) == LineBus(env, c, ptr, s0)
      ensures clock == old(clock).(cycles := clock.cycles)
      ensures OamFix(env, c) ==> oamAddr == 0x10C && oamFlip == 0
      ensures !OamFix(env, c) ==> oamAddr == old(oamAddr) && oamFlip == old(oamFlip)
      ensures cpu == old(cpu).(inWRAMDMAorHDMA := cpu.inWRAMDMAorHDMA, currentChannel := d)
    {
      cpu := cpu.(inWRAMDMAorHDMA := false, currentChannel := d);
      var p := dma[d];
      if hdmaPointers[d].None? {
        hdmaPointers[d] := MemPointer(env, DataBank(p) * 0x1_0000 + DataAddr(p));
      }
      if p.doTransfer {
        LineTransfer(d, p, LinePtrIn(env, c, ptr), s0);
      }
    }

    /** The line of channel d with record c when it transfers, from the
        pointer p1 it starts with: the Uniracers OAM fix-up, then the
        bytes in the channel's direction. */
    method LineTransfer(d: int, c: Channel, ghost p1: Option<int>, ghost s0: Bus)
      requires Valid() && 0 <= d < 8 && c.doTransfer && hdmaPointers[d] == p1
      requires s0 == Bus(mem, ppuReads, ppuTrace, clock.cycles)
      modifies this`cpu, this`oamAddr, this`oamFlip, this`mem, this`ppuReads, this`ppuTrace, this`clock,
               hdmaPointers
      ensures Valid()
      ensures hdmaPointers[d] == TransferPtr(c, p1)
      ensures forall e :: 0 <= e < 8 && e != d ==> hdmaPointers[e] == old(hdmaPointers[e])
      ensures Bus(mem, ppuReads, ppuTrace, clock.cycles) == TransferBus(env, c, p1, s0)
      ensures clock == old(clock).(cycles := clock.cycles)
      ensures OamFix(env, c) ==> oamAddr == 0x10C && oamFlip == 0
      ensures !OamFix(env, c) ==> oamAddr == old(oamAddr) && oamFlip == old(oamFlip)
      ensures cpu == old(cpu).(inWRAMDMAorHDMA := cpu.inWRAMDMAorHDMA)
    {
      if c.bAddress == 0x04 && env.uniracers {
        oamAddr := 0x10C;
        oamFlip := 0;
      }
      if !c.reverseTransfer {
        SendChannelLine(d, c, p1, s0);
      } else {
        ReceiveChannelLine(d, c, s0);
      }
    }

    /** The first loop of `S9xDoHDMA(byte)`: the line of every channel in
        byte, in channel order, from records chans and cached pointers
        ptrs; the bus state before it is s0. */
    method SendLines(byte: bv8, ghost chans: seq<Channel>, ghost ptrs: seq<Option<int>>, ghost s0: Bus)
      requires Valid() && chans == dma[..] && ptrs == hdmaPointers[..]
      requires s0 == Bus(mem, ppuReads, ppuTrace, clock.cycles)
      modifies this`cpu, this`oamAddr, this`oamFlip, this`mem, this`ppuReads, this`ppuTrace, this`clock,
               hdmaPointers
      ensures Valid()
      ensures hdmaPointers[..] == LinesPtrs(env, chans, ptrs, byte)
      ensures BusAfterLines(byte, chans, ptrs, s0, (old(oamAddr), old(oamFlip)))
      ensures clock == old(clock).(cycles := LinesBus(env, chans, ptrs, byte, 8, s0).cycles)
      ensures cpu == old(cpu).(inWRAMDMAorHDMA := cpu.inWRAMDMAorHDMA, currentChannel := cpu.currentChannel)
    {
      var d := 0;
      while d < 8
        invariant 0 <= d <= 8 && Valid()
        invariant SentBelow(env, chans, ptrs, byte, s0, (old(oamAddr), old(oamFlip)), hdmaPointers[..],
                            Bus(mem, ppuReads, ppuTrace, clock.cycles), (oamAddr, oamFlip), d)
        invariant clock == old(clock).(cycles := clock.cycles)
        invariant cpu == old(cpu).(inWRAMDMAorHDMA := cpu.inWRAMDMAorHDMA, currentChannel := cpu.currentChannel)
      {
        SendNext(byte, d, chans, ptrs, s0, (old(oamAddr), old(oamFlip)));
        d := d + 1;
      }
      assert hdmaPointers[..] == LinesPtrs(env, chans, ptrs, byte);
    }

    /** Channel d's turn in the first loop of `S9xDoHDMA(byte)`, from
        records chans, pointers ptrs, bus s0 and OAM state oam0: a channel
        in byte runs its line. */
    method SendNext(byte: bv8, d: int, ghost chans: seq<Channel>, ghost ptrs: seq<Option<int>>, ghost s0: Bus,
                    ghost oam0: (int, int))
      requires Valid() && 0 <= d < 8 && chans == dma[..] && |ptrs| == 8 && |s0.mem| == 0x100_0000
      requires SentBelow(env, chans, ptrs, byte, s0, oam0, hdmaPointers[..],
                         Bus(mem, ppuReads, ppuTrace, clock.cycles), (oamAddr, oamFlip), d)
      modifies this`cpu, this`oamAddr, this`oamFlip, this`mem, this`ppuReads, this`ppuTrace, this`clock,
               hdmaPointers
      ensures Valid()
      ensures SentBelow(env, chans, ptrs, byte, s0, oam0, hdmaPointers[..],
                        Bus(mem, ppuReads, ppuTrace, clock.cycles), (oamAddr, oamFlip), d + 1)
      ensures clock == old(clock).(cycles := clock.cycles)
      ensures cpu == old(cpu).(inWRAMDMAorHDMA := cpu.inWRAMDMAorHDMA, currentChannel := cpu.currentChannel)
    {
      ghost var ps, bus, oam := hdmaPointers[..], Bus(mem, ppuReads, ppuTrace, clock.cycles), (oamAddr, oamFlip);
      if byte & Bit(d) != 0 {
        HdmaLine(d, dma[d], hdmaPointers[d], bus);
      }
      SentStep(env, chans, ptrs, byte, s0, oam0, ps, bus, oam, hdmaPointers[..],
               Bus(mem, ppuReads, ppuTrace, clock.cycles), (oamAddr, oamFlip), d);
    }

    /** The bookkeeping at the end of channel d's line: the data address
        moved past a line that transferred, transfer on the next line
        unless the group is sent once, and one line fewer. */
    method AdvanceLine(d: int)
      requires Valid() && 0 <= d < 8
      modifies dma
      ensures dma[d] == LineAdvance(old(dma[d]))
      ensures forall e :: 0 <= e < 8 && e != d ==> dma[e] == old(dma[e])
    {
      var p := dma[d];
      if p.doTransfer {
        if p.hdmaIndirect {
          p := p.(countOrIndirect := (p.countOrIndirect + ModeByteCounts[p.transferMode]) % 0x1_0000);
        } else {
          p := p.(address := (p.address + ModeByteCounts[p.transferMode]) % 0x1_0000);
        }
      }
      dma[d] := p.(doTransfer := !p.repeat, lineCount := if p.lineCount == 0 then 0xFF else p.lineCount - 1);
    }

    /** The second loop of `S9xDoHDMA` for an enabled channel d: the
        bookkeeping of `AdvanceLine`, then the next header read when the
        group is over, and one cycle charged when it is not. */
    method EndChannelLine(d: int, ghost c: Channel, ghost ptr: Option<int>) returns (more: bool)
      requires Valid() && 0 <= d < 8 && c == dma[d] && ptr == hdmaPointers[d]
      modifies this`clock, dma, hdmaPointers
      ensures var r := EndLine(env, mem, c, d, hdma, ptr);
        && dma[d] == r.chan && hdmaPointers[d] == r.ptr && more == r.more
        && clock == old(clock).(cycles := old(clock).cycles + r.cycles)
      ensures forall e :: 0 <= e < 8 && e != d ==> dma[e] == old(dma[e]) && hdmaPointers[e] == old(hdmaPointers[e])
    {
      AdvanceLine(d);
      if dma[d].lineCount == 0 {
        more := ReadLineCount(d);
        if !more {
          dma[d] := dma[d].(doTransfer := false);
        }
      } else {
        more := true;
        clock := clock.(cycles := clock.cycles + env.slowOneCycle);
      }
    }

    /** Channel d's turn in the second loop of `S9xDoHDMA(byte)`, with
        record c and pointer ptr, while left still agrees with byte on
        channel d: a channel in byte ends its line, and when its table
        ended (ended) it leaves left for `PPU.HDMAEnded`. */
    method EndChannel(byte: bv8, d: int, left: bv8, ghost c: Channel, ghost ptr: Option<int>)
      returns (left': bv8, ghost ended: bool)
      requires Valid() && 0 <= d < 8 && c == dma[d] && ptr == hdmaPointers[d]
      requires HasBit(left, d) <==> HasBit(byte, d)
      modifies this`clock, this`hdmaEnded, dma, hdmaPointers
      ensures EndOutcome(env, mem, hdma, byte, d, c, ptr, HasBit(old(hdmaEnded), d),
                         dma[d], hdmaPointers[d], HasBit(byte, d) && !ended, HasBit(old(hdmaEnded), d) || ended)
      ensures forall e :: 0 <= e < 8 && e != d ==> dma[e] == old(dma[e]) && hdmaPointers[e] == old(hdmaPointers[e])
      ensures left' == (if ended then left & !Bit(d) else left)
      ensures hdmaEnded == (if ended then old(hdmaEnded) | Bit(d) else old(hdmaEnded))
      ensures clock == old(clock).(cycles := clock.cycles)
      ensures clock.cycles == old(clock).cycles + if HasBit(byte, d) then EndLine(env, mem, c, d, hdma, ptr).cycles else 0
    {
      if HasBit(left, d) {
        left', ended := EndEnabled(d, left, c, ptr);
      } else {
        left', ended := left, false;
      }
    }

    /** The branch of `EndChannel` for a channel in byte. */
    method EndEnabled(d: int, left: bv8, ghost c: Channel, ghost ptr: Option<int>)
      returns (left': bv8, ghost ended: bool)
      requires Valid() && 0 <= d < 8 && c == dma[d] && ptr == hdmaPointers[d]
      modifies this`clock, this`hdmaEnded, dma, hdmaPointers
      ensures var r := EndLine(env, mem, c, d, hdma, ptr);
        && dma[d] == r.chan && hdmaPointers[d] == r.ptr && ended == !r.more
        && clock == old(clock).(cycles := clock.cycles) && clock.cycles == old(clock).cycles + r.cycles
      ensures forall e :: 0 <= e < 8 && e != d ==> dma[e] == old(dma[e]) && hdmaPointers[e] == old(hdmaPointers[e])
      ensures left' == (if ended then left & !Bit(d) else left)
      ensures hdmaEnded == (if ended then old(hdmaEnded) | Bit(d) else old(hdmaEnded))
    {
      var more := EndChannelLine(d, c, ptr);
      ended := !more;
      left' := left;
      if !more {
        left' := left & !Bit(d);
        hdmaEnded := hdmaEnded | Bit(d);
      }
    }

    /** Channel d's turn in the second loop of `S9xDoHDMA(byte)`, from
        records chans, pointers ptrs and `PPU.HDMAEnded` ended0: the
        channels below d are done, the others untouched, and the cycles
        charged so far are the line ends of the channels below d. */
    method EndNext(byte: bv8, d: int, left: bv8, ghost chans: seq<Channel>, ghost ptrs: seq<Option<int>>,
                   ghost ended0: bv8, ghost cycles0: int)
      returns (left': bv8)
      requires Valid() && 0 <= d < 8 && |chans| == 8 && |ptrs| == 8
      requires EndedBelow(env, mem, hdma, byte, chans, ptrs, ended0, dma[..], hdmaPointers[..], left, hdmaEnded, d)
      requires EndPending(byte, chans, ptrs, ended0, dma[..], hdmaPointers[..], left, hdmaEnded, d)
      requires clock.cycles == cycles0 + EndCycles(env, mem, chans, ptrs, hdma, byte, d)
      modifies this`clock, this`hdmaEnded, dma, hdmaPointers
      ensures EndedBelow(env, mem, hdma, byte, chans, ptrs, ended0, dma[..], hdmaPointers[..], left', hdmaEnded, d + 1)
      ensures EndPending(byte, chans, ptrs, ended0, dma[..], hdmaPointers[..], left', hdmaEnded, d + 1)
      ensures clock == old(clock).(cycles := clock.cycles)
      ensures clock.cycles == cycles0 + EndCycles(env, mem, chans, ptrs, hdma, byte, d + 1)
    {
      ghost var ds, ps, en := dma[..], hdmaPointers[..], hdmaEnded;
      ghost var ended;
      left', ended := EndChannel(byte, d, left, dma[d], hdmaPointers[d]);
      EndStep(env, mem, hdma, byte, chans, ptrs, ended0, ds, ps, left, en, dma[..], hdmaPointers[..], left',
              hdmaEnded, d, ended);
    }

    /** The second loop of `S9xDoHDMA(byte)`, from records chans and the
        pointers ptrs the first loop left: every channel in byte ends its
        line; the result is byte without the channels whose tables ended,
        which join `PPU.HDMAEnded`. */
    method EndLines(byte: bv8, ghost chans: seq<Channel>, ghost ptrs: seq<Option<int>>, ghost cycles0: int)
      returns (left: bv8)
      requires Valid() && chans == dma[..] && ptrs == hdmaPointers[..] && cycles0 == clock.cycles
      modifies this`clock, this`hdmaEnded, dma, hdmaPointers
      ensures LinesEnded(byte, chans, ptrs, cycles0, old(hdmaEnded), left)
      ensures clock == old(clock).(cycles := clock.cycles)
    {
      left := byte;
      var d := 0;
      while d < 8
        invariant 0 <= d <= 8
        invariant EndedBelow(env, mem, hdma, byte, chans, ptrs, old(hdmaEnded), dma[..], hdmaPointers[..], left,
                             hdmaEnded, d)
        invariant EndPending(byte, chans, ptrs, old(hdmaEnded), dma[..], hdmaPointers[..], left, hdmaEnded, d)
        invariant clock == old(clock).(cycles := clock.cycles)
        invariant clock.cycles == cycles0 + EndCycles(env, mem, chans, ptrs, hdma, byte, d)
      {
        left := EndNext(byte, d, left, chans, ptrs, old(hdmaEnded), cycles0);
        d := d + 1;
      }
    }

    /** The first loop of `S9xDoHDMA(byte)` is over, started from records
        chans, pointers ptrs, bus s0 and OAM state oam0: memory and the
        PPU as `LinesBus` says, and the OAM address reset when some channel
        wrote the OAM data port during a DMA. */
    ghost predicate BusAfterLines(byte: bv8, chans: seq<Channel>, ptrs: seq<Option<int>>, s0: Bus, oam0: (int, int))
      requires |chans| == 8 && |ptrs| == 8 && |s0.mem| == 0x100_0000
      reads this`mem, this`ppuReads, this`ppuTrace, this`oamAddr, this`oamFlip
    {
      && EnvOk(env)
      && var s1 := LinesBus(env, chans, ptrs, byte, 8, s0);
      && mem == s1.mem && ppuReads == s1.readCount && ppuTrace == s1.trace
      && (oamAddr, oamFlip) == (if AnyOamFix(env, chans, byte, 8) then (0x10C, 0) else oam0)
    }

    /** The second loop of `S9xDoHDMA(byte)` is over, started from
        records chans, pointers ptrs, cycle count cycles0 and
        `PPU.HDMAEnded` ended0: every channel as `EndOutcome` says, with
        the cycles of the line ends charged, and left the channels kept. */
    ghost predicate LinesEnded(byte: bv8, chans: seq<Channel>, ptrs: seq<Option<int>>, cycles0: int, ended0: bv8,
                               left: bv8)
      requires |chans| == 8 && |ptrs| == 8
      reads this`mem, this`clock, this`hdmaEnded, this`hdma, dma, hdmaPointers
    {
      && EnvOk(env) && |mem| == 0x100_0000 && dma.Length == 8 && hdmaPointers.Length == 8
      && EndedBelow(env, mem, hdma, byte, chans, ptrs, ended0, dma[..], hdmaPointers[..], left, hdmaEnded, 8)
      && clock.cycles == cycles0 + EndCycles(env, mem, chans, ptrs, hdma, byte, 8)
    }

    /** Both loops of `S9xDoHDMA(byte)` are over, started from records
        chans, pointers ptrs, bus s0, `PPU.HDMAEnded` ended0, OAM state
        oam0 and clock clock1: the bus and the OAM state as the first loop
        left them, every channel as `EndOutcome` says for the pointers the
        first loop left, and the clock charged for both loops. */
    ghost predicate LinesDone(byte: bv8, chans: seq<Channel>, ptrs: seq<Option<int>>, s0: Bus, ended0: bv8,
                              oam0: (int, int), clock1: Clock, left: bv8)
      requires |chans| == 8 && |ptrs| == 8 && |s0.mem| == 0x100_0000
      reads this`mem, this`ppuReads, this`ppuTrace, this`clock, this`hdmaEnded, this`oamAddr, this`oamFlip,
            this`hdma, dma, hdmaPointers
    {
      && EnvOk(env) && dma.Length == 8 && hdmaPointers.Length == 8
      && BusAfterLines(byte, chans, ptrs, s0, oam0)
      && LinesEnded(byte, chans, LinesPtrs(env, chans, ptrs, byte), LinesBus(env, chans, ptrs, byte, 8, s0).cycles,
                    ended0, left)
      && clock == clock1.(cycles := clock.cycles)
    }

    /** Everything `S9xDoHDMA(byte)` has done once it returns left, for
        records chans, pointers ptrs, bus s0 (its cycle count after the
        `DMACPUSync` charge), `PPU.HDMAEnded` ended0, OAM state oam0, clock
        clock0 and CPU flags cpu0 before it: both loops as `LinesDone`
        says, `CPU.HDMARanInDMA` set during a DMA, and the CPU flags
        restored. */
    ghost predicate HdmaDone(byte: bv8, chans: seq<Channel>, ptrs: seq<Option<int>>, s0: Bus, ended0: bv8,
                             oam0: (int, int), clock0: Clock, cpu0: CpuFlags, left: bv8)
      requires |chans| == 8 && |ptrs| == 8 && |s0.mem| == 0x100_0000
      reads this`mem, this`ppuReads, this`ppuTrace, this`clock, this`hdmaEnded, this`oamAddr, this`oamFlip,
            this`cpu, this`hdma, dma, hdmaPointers
    {
      && LinesDone(byte, chans, ptrs, s0, ended0, oam0, clock0.(hdmaRanInDMA := if cpu0.inDMA then byte else 0), left)
      && cpu == cpu0.(inHDMA := false, inDMAorHDMA := cpu0.inDMA)
    }

    /** The two loops of `S9xDoHDMA(byte)`, from records chans, pointers
        ptrs, bus s0, `PPU.HDMAEnded` ended0, OAM state oam0 and clock
        clock1 (its cycle count aside). */
    method HdmaLoops(byte: bv8, ghost chans: seq<Channel>, ghost ptrs: seq<Option<int>>, ghost s0: Bus,
                     ghost ended0: bv8, ghost oam0: (int, int), ghost clock1: Clock)
      returns (left: bv8)
      requires Valid() && chans == dma[..] && ptrs == hdmaPointers[..]
      requires s0 == Bus(mem, ppuReads, ppuTrace, clock.cycles) && ended0 == hdmaEnded && oam0 == (oamAddr, oamFlip)
      requires clock == clock1.(cycles := clock.cycles)
      modifies this`cpu, this`oamAddr, this`oamFlip, this`mem, this`ppuReads, this`ppuTrace, this`clock,
               this`hdmaEnded, dma, hdmaPointers
      ensures Valid()
      ensures LinesDone(byte, chans, ptrs, s0, ended0, oam0, clock1, left)
      ensures cpu == old(cpu).(inWRAMDMAorHDMA := cpu.inWRAMDMAorHDMA, currentChannel := cpu.currentChannel)
    {
      SendLines(byte, chans, ptrs, s0);
      ghost var ptrs1, cycles1 := hdmaPointers[..], clock.cycles;
      left := EndLines(byte, chans, ptrs1, cycles1);
    }

    /** The end of `S9xDoHDMA`: the CPU flags it saved restored. */
    method RestoreAfterLines(temp: bool, tmpch: int)
      modifies this`cpu
      ensures cpu == old(cpu).(inHDMA := false, inDMAorHDMA := old(cpu).inDMA, inWRAMDMAorHDMA := temp,
                               currentChannel := tmpch)
    {
      cpu := cpu.(inHDMA := false, inDMAorHDMA := cpu.inDMA, inWRAMDMAorHDMA := temp, currentChannel := tmpch);
    }

    /** `S9xDoHDMA(byte)`: one scanline of HDMA on the channels in byte.
        The result keeps exactly those channels whose tables go on. */
    method DoHdma(byte: bv8) returns (left: bv8)
      requires Valid()
      modifies this`cpu, this`oamAddr, this`oamFlip, this`mem, this`ppuReads, this`ppuTrace, this`clock,
               this`hdmaEnded, dma, hdmaPointers
      ensures Valid()
      ensures HdmaDone(byte, old(dma[..]), old(hdmaPointers[..]),
                       Bus(old(mem), old(ppuReads), old(ppuTrace), old(clock.cycles) + env.dmaCpuSync),
                       old(hdmaEnded), (old(oamAddr), old(oamFlip)), old(clock), old(cpu), left)
      ensures forall e :: 0 <= e < 8 ==> HasBit(left, e) ==> HasBit(byte, e)
    {
      var temp := cpu.inWRAMDMAorHDMA;
      var tmpch := cpu.currentChannel;
      cpu := cpu.(inHDMA := true, inDMAorHDMA := true);
      clock := clock.(hdmaRanInDMA := if cpu.inDMA then byte else 0,
                      cycles := clock.cycles + env.dmaCpuSync);
      left := HdmaLoops(byte, old(dma[..]), old(hdmaPointers[..]),
                        Bus(old(mem), old(ppuReads), old(ppuTrace), old(clock.cycles) + env.dmaCpuSync),
                        old(hdmaEnded), (old(oamAddr), old(oamFlip)), clock);
      RestoreAfterLines(temp, tmpch);
    }

    /** An enabled channel i with record c at the top of a frame, while
        `PPU.HDMA` still agrees with $420C on channel i and above: its table
        restarts at `AAddress` and its first header is read. */
    method RestartTable(i: int, ghost c: Channel) returns (more: bool)
      requires Valid() && 0 <= i < 8 && c == dma[i]
      requires forall e :: i <= e < 8 ==> (HasBit(hdma, e) <==> HasBit(fill420c, e))
      modifies this`cpu, this`clock, dma, hdmaPointers
      ensures var r := LineHeader(env, mem, c.(address := c.aAddress), i, fill420c);
        && dma[i] == r.chan && hdmaPointers[i] == r.ptr && more == r.more
        && clock == old(clock).(cycles := old(clock).cycles + r.cycles)
      ensures forall e :: 0 <= e < 8 && e != i ==> dma[e] == old(dma[e]) && hdmaPointers[e] == old(hdmaPointers[e])
      ensures cpu == old(cpu).(currentChannel := i)
    {
      cpu := cpu.(currentChannel := i);
      dma[i] := dma[i].(address := dma[i].aAddress);
      AboveAgree(hdma, fill420c, i);
      LineHeaderAbove(env, mem, c.(address := c.aAddress), i, hdma, fill420c);
      more := ReadLineCount(i);
    }

    /** One turn of the loop of `S9xStartHDMA` for channel i with record
        c and pointer ptr, while `PPU.HDMA` still agrees with $420C on
        channel i and above: an enabled channel restarts its table and
        leaves `PPU.HDMA` for `PPU.HDMAEnded` when the table is empty; a
        disabled one stops transferring. */
    method StartChannel(i: int, ghost c: Channel, ghost ptr: Option<int>) returns (ghost ended: bool)
      requires Valid() && 0 <= i < 8 && c == dma[i] && ptr == hdmaPointers[i]
      requires forall e :: i <= e < 8 ==> (HasBit(hdma, e) <==> HasBit(fill420c, e))
      modifies this`hdma, this`hdmaEnded, this`cpu, this`clock, dma, hdmaPointers
      ensures StartOutcome(env, mem, fill420c, i, c, ptr, dma[i], hdmaPointers[i], HasBit(fill420c, i) && !ended, ended)
      ensures forall e :: 0 <= e < 8 && e != i ==> dma[e] == old(dma[e]) && hdmaPointers[e] == old(hdmaPointers[e])
      ensures hdma == (if ended then old(hdma) & !Bit(i) else old(hdma))
      ensures hdmaEnded == (if ended then old(hdmaEnded) | Bit(i) else old(hdmaEnded))
      ensures clock == old(clock).(cycles := clock.cycles)
      ensures clock.cycles == old(clock).cycles
                + if HasBit(fill420c, i) then LineHeader(env, mem, c.(address := c.aAddress), i, fill420c).cycles else 0
      ensures cpu == old(cpu).(currentChannel := cpu.currentChannel)
    {
      if HasBit(hdma, i) {
        ended := StartEnabled(i, c);
      } else {
        ended := false;
        dma[i] := dma[i].(doTransfer := false);
      }
    }

    /** The enabled branch of `StartChannel`. */
    method StartEnabled(i: int, ghost c: Channel) returns (ghost ended: bool)
      requires Valid() && 0 <= i < 8 && c == dma[i] && HasBit(hdma, i)
      requires forall e :: i <= e < 8 ==> (HasBit(hdma, e) <==> HasBit(fill420c, e))
      modifies this`hdma, this`hdmaEnded, this`cpu, this`clock, dma, hdmaPointers
      ensures var r := LineHeader(env, mem, c.(address := c.aAddress), i, fill420c);
        && dma[i] == r.chan && hdmaPointers[i] == r.ptr && ended == !r.more
        && clock == old(clock).(cycles := clock.cycles) && clock.cycles == old(clock).cycles + r.cycles
      ensures forall e :: 0 <= e < 8 && e != i ==> dma[e] == old(dma[e]) && hdmaPointers[e] == old(hdmaPointers[e])
      ensures hdma == (if ended then old(hdma) & !Bit(i) else old(hdma))
      ensures hdmaEnded == (if ended then old(hdmaEnded) | Bit(i) else old(hdmaEnded))
      ensures cpu == old(cpu).(currentChannel := i)
    {
      var more := RestartTable(i, c);
      ended := !more;
      if !more {
        hdma := hdma & !Bit(i);
        hdmaEnded := hdmaEnded | Bit(i);
      }
    }

    /** Everything `S9xStartHDMA` has done, for records chans, cached
        pointers ptrs, clock clock0 and CPU flags cpu0 before it: each
        channel as `StartOutcome` says, the `DMACPUSync` charge when some
        channel is enabled and the header cycles, and the CPU flags
        restored. */
    ghost predicate HdmaStarted(chans: seq<Channel>, ptrs: seq<Option<int>>, clock0: Clock, cpu0: CpuFlags)
      requires |chans| == 8 && |ptrs| == 8
      reads this`mem, this`fill420c, this`hdma, this`hdmaEnded, this`clock, this`cpu, dma, hdmaPointers
    {
      && EnvOk(env) && |mem| == 0x100_0000 && dma.Length == 8 && hdmaPointers.Length == 8
      && StartedBelow(env, mem, fill420c, chans, ptrs, dma[..], hdmaPointers[..], hdma, hdmaEnded, 8)
      && clock == clock0.(cycles := clock0.cycles + (if fill420c != 0 then env.dmaCpuSync else 0)
                                    + StartCycles(env, mem, chans, fill420c, 8),
                          hdmaRanInDMA := if cpu0.inDMA then hdma else 0)
      && cpu == cpu0.(inHDMA := false, inDMAorHDMA := cpu0.inDMA)
    }

    /** Channel i's turn in the loop of `S9xStartHDMA` over the channels,
        from records chans and pointers ptrs: the channels below i are
        done, the others untouched, and the cycles charged so far are the
        headers of the channels below i. */
    method StartNext(i: int, ghost chans: seq<Channel>, ghost ptrs: seq<Option<int>>, ghost cycles1: int)
      requires Valid() && 0 <= i < 8 && |chans| == 8 && |ptrs| == 8
      requires StartedBelow(env, mem, fill420c, chans, ptrs, dma[..], hdmaPointers[..], hdma, hdmaEnded, i)
      requires PendingFrom(fill420c, chans, ptrs, dma[..], hdmaPointers[..], hdma, hdmaEnded, i)
      requires clock.cycles == cycles1 + StartCycles(env, mem, chans, fill420c, i)
      modifies this`hdma, this`hdmaEnded, this`cpu, this`clock, dma, hdmaPointers
      ensures StartedBelow(env, mem, fill420c, chans, ptrs, dma[..], hdmaPointers[..], hdma, hdmaEnded, i + 1)
      ensures PendingFrom(fill420c, chans, ptrs, dma[..], hdmaPointers[..], hdma, hdmaEnded, i + 1)
      ensures clock == old(clock).(cycles := clock.cycles)
      ensures clock.cycles == cycles1 + StartCycles(env, mem, chans, fill420c, i + 1)
      ensures cpu == old(cpu).(currentChannel := cpu.currentChannel)
    {
      ghost var ds, ps, h, en := dma[..], hdmaPointers[..], hdma, hdmaEnded;
      ghost var ended := StartChannel(i, dma[i], hdmaPointers[i]);
      StartStep(env, mem, fill420c, chans, ptrs, ds, ps, h, en, dma[..], hdmaPointers[..], hdma, hdmaEnded, i, ended);
    }

    /** The loop of `S9xStartHDMA` over the channels, from records chans
        and pointers ptrs, with `PPU.HDMA` just loaded from $420C and
        `PPU.HDMAEnded` cleared. */
    method StartChannels(ghost chans: seq<Channel>, ghost ptrs: seq<Option<int>>, ghost cycles1: int)
      requires Valid() && chans == dma[..] && ptrs == hdmaPointers[..] && cycles1 == clock.cycles
      requires hdma == fill420c && hdmaEnded == 0
      modifies this`hdma, this`hdmaEnded, this`cpu, this`clock, dma, hdmaPointers
      ensures StartedBelow(env, mem, fill420c, chans, ptrs, dma[..], hdmaPointers[..], hdma, hdmaEnded, 8)
      ensures clock == old(clock).(cycles := clock.cycles)
      ensures clock.cycles == cycles1 + StartCycles(env, mem, chans, fill420c, 8)
      ensures cpu == old(cpu).(currentChannel := cpu.currentChannel)
    {
      var i := 0;
      while i < 8
        invariant 0 <= i <= 8
        invariant StartedBelow(env, mem, fill420c, chans, ptrs, dma[..], hdmaPointers[..], hdma, hdmaEnded, i)
        invariant PendingFrom(fill420c, chans, ptrs, dma[..], hdmaPointers[..], hdma, hdmaEnded, i)
        invariant clock == old(clock).(cycles := clock.cycles)
        invariant clock.cycles == cycles1 + StartCycles(env, mem, chans, fill420c, i)
        invariant cpu == old(cpu).(currentChannel := cpu.currentChannel)
      {
        StartNext(i, chans, ptrs, cycles1);
        i := i + 1;
      }
    }

    /** The loop of `S9xStartHDMA` and the flags restored after it; the
        ghost parameters name the state before `S9xStartHDMA`, and tmpch
        is the channel it saved. */
    method StartLoop(tmpch: int, ghost chans: seq<Channel>, ghost ptrs: seq<Option<int>>, ghost clock0: Clock,
                     ghost cpu0: CpuFlags)
      requires Valid() && chans == dma[..] && ptrs == hdmaPointers[..]
      requires hdma == fill420c && hdmaEnded == 0 && tmpch == cpu0.currentChannel
      requires clock == clock0.(cycles := clock0.cycles + (if fill420c != 0 then env.dmaCpuSync else 0))
      requires cpu == cpu0.(inHDMA := true, inDMAorHDMA := true)
      modifies this`hdma, this`hdmaEnded, this`cpu, this`clock, dma, hdmaPointers
      ensures HdmaStarted(chans, ptrs, clock0, cpu0)
    {
      StartChannels(chans, ptrs, clock.cycles);
      RestoreAfterStart(tmpch);
    }

    /** The end of `S9xStartHDMA`: the CPU flags it saved restored, and
        `CPU.HDMARanInDMA` set to the enabled channels during a DMA. */
    method RestoreAfterStart(tmpch: int)
      modifies this`cpu, this`clock
      ensures cpu == old(cpu).(inHDMA := false, inDMAorHDMA := old(cpu).inDMA, currentChannel := tmpch)
      ensures clock == old(clock).(hdmaRanInDMA := if old(cpu).inDMA then hdma else 0)
    {
      cpu := cpu.(inHDMA := false, inDMAorHDMA := cpu.inDMA, currentChannel := tmpch);
      clock := clock.(hdmaRanInDMA := if cpu.inDMA then hdma else 0);
    }

    /** `S9xStartHDMA()`: at the top of a frame every channel enabled in
        $420C restarts its table at `AAddress` and reads its first header;
        a channel whose table is empty is disabled and recorded as ended,
        and every other channel stops transferring. */
    method StartHdma()
      requires Valid()
      modifies this`hdma, this`hdmaEnded, this`cpu, this`clock, dma, hdmaPointers
      ensures HdmaStarted(old(dma[..]), old(hdmaPointers[..]), old(clock), old(cpu))
    {
      hdma := fill420c;
      hdmaEnded := 0;
      cpu := cpu.(inHDMA := true, inDMAorHDMA := true);
      var tmpch := cpu.currentChannel;
      if hdma != 0 {
        clock := clock.(cycles := clock.cycles + env.dmaCpuSync);
      }
      StartLoop(tmpch, old(dma[..]), old(hdmaPointers[..]), old(clock), old(cpu));
    }

    /** `S9xResetDMA()`: every channel in its power-on state. */
    method ResetDma()
      requires Valid()
      modifies dma
      ensures forall d :: 0 <= d < 8 ==> dma[d] == ResetChannel
    {
      for d := 0 to 8
        invariant forall e :: 0 <= e < d ==> dma[e] == ResetChannel
      {
        dma[d] := dma[d].(reverseTransfer := true, hdmaIndirect := true, aAddressFixed := true,
                          aAddressDecrement := true, transferMode := 7, bAddress := 0xFF, aAddress := 0xFFFF,
                          aBank := 0xFF, countOrIndirect := 0xFFFF, indirectBank := 0xFF, address := 0xFFFF,
                          repeat := false, lineCount := 0x7F, unknownByte := 0xFF, doTransfer := false,
                          unusedBit43x0 := true);
      }
    }
  }
}
