# A verified model of the in_xsf SNES DMA/HDMA engine and SSEQ stream helpers

This project models two cores of the in_xsf plugins in Dafny and proves properties about them.

**The Snes9x DMA/HDMA engine** (`src/in_snsf/snes9x/dma.cpp`) is modelled as the class
`DmaEngine.SnesDma`. The class holds:

- the eight channel records `DMA[8]`;
- the cached HDMA pointers `HDMAMemPointers[8]`;
- the CPU cycle counter and event position, and the CPU's DMA flags;
- `PPU.HDMA` / `PPU.HDMAEnded`;
- the OAM address;
- the S-DD1 and HDMA-enable registers;
- the 24-bit A-bus address space;
- the trace of B-bus register writes.

It provides these operations:

- `S9xDoDMA` (`DoDma`): a general-purpose DMA, which is either the invalid WRAM-to-$2180 kind, a forward (CPU to PPU) transfer or a reverse (PPU to CPU) transfer;
- `HDMAReadLineCount` (`ReadLineCount`);
- `S9xStartHDMA` (`StartHdma`);
- `S9xDoHDMA` (`DoHdma`);
- `S9xResetDMA` (`ResetDma`).

Each one is imperative Dafny: it updates the fields and arrays in place, with the source's loops as `while`/`for` loops. Its `ensures` ties the new state to pure specification functions in the modules `DmaSpec` (general DMA) and `HdmaSpec` (HDMA). For example:

- a forward DMA leaves `ppuTrace == old(ppuTrace) + ForwardWrites(...)`;
- a reverse DMA leaves `mem == ReverseMem(...)`;
- one scanline of HDMA leaves the bus state `LinesBus(...)`.

Lemmas about those functions state what the engine promises:

- every byte reaches the register its mode pattern names;
- every byte read by a reverse DMA is stored at its own address;
- a transfer stops early exactly when an HDMA on its own channel ran;
- the cached HDMA pointer stays in step with the data address;
- header bytes round-trip;
- and more, listed in the table below.

**The SSEQ player's common helpers** (`src/in_ncsf/SSEQPlayer/common.h`) are split into two modules:

- `SseqStream` holds the byte readers:
  - `PseudoFile`, a class with a read position;
  - the free little-endian reader;
  - `ByteCursor`, the `const uint8_t **` cursor of `read8`/`read16`/`read24`/`readvl`;
  - `NumToHexString`;
  - `VerifyHeader`.
- `SseqTables` holds the envelope and LFO conversions `Cnv_Attack`, `Cnv_Fall`, `Cnv_Scale`, `Cnv_Sust` and `Cnv_Sine`.

Integers are unbounded in the model. The source's 8-, 16- and 24-bit wrap-around is written out explicitly (`% 0x1_0000`, `% 0x100_0000`). Channel masks are `bv8`.

The values and services dma.cpp takes from the rest of the emulator are parameters of the engine, gathered in the datatype `DmaSpec.Env`, except the two constants named under "## Left out":

- the timing constants `SLOW_ONE_CYCLE`, `Timings.DMACPUSync` and `Timings.NMIDMADelay`;
- the `Settings.SDD1` and `SNESGameFixes.Uniracers` switches;
- an oracle saying which 24-bit addresses lie in a directly mapped memory block;
- an oracle for PPU register reads;
- an oracle for horizontal-event processing (the next event position, and the mask of an HDMA it ran, if any);
- the contents of the S-DD1 decode buffer.

## Model

| member | source | states |
|---|---|---|
| DmaEngine.SnesDma.constructor | src/in_snsf/snes9x/dma.cpp:1356-1374 | every channel starts in the power-on record of `S9xResetDMA`, with no cached HDMA pointer and an empty B-bus trace |
| DmaEngine.SnesDma.AddCyclesInDMA | src/in_snsf/snes9x/dma.cpp:19-37 | one byte's `SLOW_ONE_CYCLE`, then events run while `Cycles >= NextEvent`; the result is false exactly when an event ran an HDMA on this channel; `HDMARanInDMA` is cleared either way (`DmaTick`) |
| DmaEngine.SnesDma.UpdateCounters | src/in_snsf/snes9x/dma.cpp:149-161 | after j+1 steps the count register is j+1 lower and `AAddress` is j+1 steps of `inc` further, both mod 2^16; no other channel changes; the clock is the (j+1)-step outcome |
| DmaEngine.SnesDma.CountDown | src/in_snsf/snes9x/dma.cpp:66-79 | the invalid DMA's loop performs exactly the steps `DmaSteps` allows, stepping `AAddress` by +1 each time, and reports whether all of them ran |
| DmaEngine.SnesDma.InvalidTransfer | src/in_snsf/snes9x/dma.cpp:47-85 | the invalid DMA charges the channel cycle and counts down with +1 address steps (the fixed/decrement flags are ignored); it moves no byte and clears the DMA flags |
| DmaEngine.SnesDma.EndDma | src/in_snsf/snes9x/dma.cpp:898-904 | the DMA flags are cleared; a pending NMI moves to `Cycles + NMIDMADelay` only after a transfer that ran to its end, and only when `NMITriggerPos != 0xffff` |
| DmaEngine.SnesDma.FirstChunkOf | src/in_snsf/snes9x/dma.cpp:130-146 | the first chunk is the rest of the memory block in the direction of travel, or the whole count for a fixed address or the S-DD1 buffer; its path and WRAM flag are those of its block |
| DmaEngine.SnesDma.EmitForward | src/in_snsf/snes9x/dma.cpp:173-640 | byte j's write, from memory or the S-DD1 buffer, on the path its chunk resolved, extends the trace to `ForwardWrites` of j+1 bytes |
| DmaEngine.SnesDma.EmitStep | src/in_snsf/snes9x/dma.cpp:173-640 | after byte j's write the pattern phase and source position are those of byte j+1 |
| DmaEngine.SnesDma.ForwardStep | src/in_snsf/snes9x/dma.cpp:163-651 | one byte written and `UPDATE_COUNTERS`: the forward invariant holds for j+1 bytes with the clock's verdict; other channels unchanged |
| DmaEngine.SnesDma.ForwardChunk | src/in_snsf/snes9x/dma.cpp:163-643 | a chunk of uniform path moves between one and `count` bytes, all of them unless an HDMA on the channel cut it short, keeping the forward invariant |
| DmaEngine.SnesDma.ForwardRound | src/in_snsf/snes9x/dma.cpp:163-651 | one round of the chunk loop moves at most the bytes left, sets `InWRAMDMAorHDMA` to the chunk's flag and reduces the bytes left by the chunk length |
| DmaEngine.SnesDma.FinishForward | src/in_snsf/snes9x/dma.cpp:896-904 | after the forward loop the transfer meets `ForwardDone`: the bytes moved are those `DmaSteps` allows, then flags and NMI as `DmaEnd` says |
| DmaEngine.SnesDma.NextChunk | src/in_snsf/snes9x/dma.cpp:645-651 | after a whole chunk the next one is a full block, and its path and `inWRAM_DMA` are re-resolved from the current address |
| DmaEngine.SnesDma.ForwardChunks | src/in_snsf/snes9x/dma.cpp:163-651 | the chunk loop moves the bytes the clock lets through, carrying the pattern phase `b` across chunks, so the B-bus trace is `ForwardWrites` of exactly those bytes |
| DmaEngine.SnesDma.ForwardTransfer | src/in_snsf/snes9x/dma.cpp:127-652 | the forward DMA steps count and address per byte and appends `ForwardWrites` of the bytes moved; it stops early exactly as `DmaSteps` says and ends with the flags and NMI of `DmaEnd` |
| DmaEngine.SnesDma.ReverseByte | src/in_snsf/snes9x/dma.cpp:672-886 | byte j's PPU read is stored at its A address, extending memory to `ReverseMem` of j+1 bytes with one more PPU read; the WRAM flag follows byte j's own address on the really-slow path (`ReverseCpu` of j+1 bytes is `ReverseWram` of byte j) |
| DmaEngine.SnesDma.ReverseStep | src/in_snsf/snes9x/dma.cpp:659-886 | one byte stored and `UPDATE_COUNTERS`: the reverse invariant holds for j+1 bytes with the clock's verdict |
| DmaEngine.SnesDma.ReverseLoop | src/in_snsf/snes9x/dma.cpp:653-904 | the reverse loop runs until the count is exhausted or an HDMA on the channel stops it, and meets `ReverseDone` |
| DmaEngine.SnesDma.ReverseFinish | src/in_snsf/snes9x/dma.cpp:896-904 | after the reverse loop the transfer meets `ReverseDone`: the bytes stored are those `DmaSteps` allows, then flags and NMI as `DmaEnd` says |
| DmaEngine.SnesDma.ReverseTransfer | src/in_snsf/snes9x/dma.cpp:653-896 | the reverse DMA stores, for each byte moved, the PPU read of its pattern register at its A address (`ReverseMem`); it counts one PPU read per byte and steps count and address |
| DmaEngine.SnesDma.MoveBytes | src/in_snsf/snes9x/dma.cpp:127-896 | a valid DMA moves bytes forward or in reverse as `ReverseTransfer` says, with the outcome `Moved` |
| DmaEngine.SnesDma.InvalidDoDma | src/in_snsf/snes9x/dma.cpp:47-85 | `S9xDoDMA` on the invalid kind meets `DmaDone`: no memory or bus change, no NMI reschedule, `InWRAMDMAorHDMA` kept |
| DmaEngine.SnesDma.ValidDoDma | src/in_snsf/snes9x/dma.cpp:87-904 | `S9xDoDMA` past the invalid check meets `DmaDone`: `$4801` is zeroed on S-DD1 cartridges and the plan comes from `DmaPlan` |
| DmaEngine.SnesDma.DoDma | src/in_snsf/snes9x/dma.cpp:39-905 | one DMA as a whole (`DmaDone`): count, address, memory, trace, PPU reads, clock, NMI position, `$4801` and CPU flags, in terms of the state before the call; the other channels are unchanged |
| DmaEngine.SnesDma.DmaDone | src/in_snsf/snes9x/dma.cpp:39-905 | the whole effect of `S9xDoDMA`: the bytes `Moved` says, a pending NMI re-armed `NMIDMADelay` after a valid DMA that ran to its end, `$4801` cleared by a valid DMA on an S-DD1 cartridge, and the DMA flags cleared, `InWRAMDMAorHDMA` kept only by the invalid kind |
| DmaEngine.SnesDma.ReadLineCount | src/in_snsf/snes9x/dma.cpp:907-963 | channel d's record, cached pointer and clock become those `LineHeader` gives; the result says whether the table goes on; other channels are untouched |
| DmaEngine.SnesDma.SourceOf | src/in_snsf/snes9x/dma.cpp:1057-1245 | byte k of a line is read at `LineSource` for its path; the really-slow path sets `InWRAMDMAorHDMA` for that address, and nothing else in the CPU flags changes |
| DmaEngine.SnesDma.SendByte | src/in_snsf/snes9x/dma.cpp:1053-1245 | byte k of a line extends the trace to `LineWrites` of k+1 bytes at one more `SLOW_ONE_CYCLE` |
| DmaEngine.SnesDma.ReceiveByte | src/in_snsf/snes9x/dma.cpp:1247-1316 | byte k's PPU read is stored as `LineStores` of k+1 bytes, with one more PPU read and one more `SLOW_ONE_CYCLE` |
| DmaEngine.SnesDma.SendLine | src/in_snsf/snes9x/dma.cpp:1053-1245 | a CPU-to-PPU line appends `LineWrites`, the line's bytes in HDMA-pattern order, at `SLOW_ONE_CYCLE` each |
| DmaEngine.SnesDma.ReceiveLine | src/in_snsf/snes9x/dma.cpp:1247-1316 | a PPU-to-CPU line stores each pattern register's read at the 16-bit-wrapped data address (`LineStores`) at `SLOW_ONE_CYCLE` each |
| DmaEngine.SnesDma.SendChannelLine | src/in_snsf/snes9x/dma.cpp:1053-1245 | a line that runs into the next block drops the pointer and takes the really-slow path; otherwise the fast path moves the pointer past the line and the slow path keeps it null |
| DmaEngine.SnesDma.ReceiveChannelLine | src/in_snsf/snes9x/dma.cpp:1247-1316 | a reverse line drops the cached pointer and stores its bytes as `LineStores` says |
| DmaEngine.SnesDma.HdmaLine | src/in_snsf/snes9x/dma.cpp:1019-1317 | channel d's turn in the first loop: a null pointer is fetched, and a transferring line has the bus effect `LineBus` and pointer `LinePtrOut`; the OAM fix-up applies only to Uniracers on `$2104` |
| DmaEngine.SnesDma.LineTransfer | src/in_snsf/snes9x/dma.cpp:1040-1316 | a transferring line applies the OAM fix-up, then moves its bytes in the channel's direction (`TransferBus`, `TransferPtr`) |
| DmaEngine.SnesDma.SendLines | src/in_snsf/snes9x/dma.cpp:1017-1318 | the first loop of `S9xDoHDMA(byte)` leaves pointers `LinesPtrs`, bus state `LinesBus` over the channels of byte in channel order, and the OAM fix-up if any channel had it |
| DmaEngine.SnesDma.SendNext | src/in_snsf/snes9x/dma.cpp:1019-1317 | channel d's turn of the first loop extends `SentBelow` from d to d+1; the clock's events and the flags other than the WRAM flag and current channel stay |
| DmaEngine.SnesDma.AdvanceLine | src/in_snsf/snes9x/dma.cpp:1324-1334 | the line bookkeeping is `LineAdvance`: data address past a transferred line, `DoTransfer = !Repeat`, line counter down by one mod 256 |
| DmaEngine.SnesDma.EndChannelLine | src/in_snsf/snes9x/dma.cpp:1322-1344 | channel d's end of line is `EndLine`: one cycle while the group lasts, otherwise the next header, and transfer off when the table ended |
| DmaEngine.SnesDma.EndChannel | src/in_snsf/snes9x/dma.cpp:1320-1346 | a channel of byte ends its line (`EndOutcome`); when its table ends, its bit leaves the result mask and joins `PPU.HDMAEnded` |
| DmaEngine.SnesDma.EndEnabled | src/in_snsf/snes9x/dma.cpp:1334-1344 | an enabled channel's end of line is `EndLine`; when its table ends, its bit leaves the result mask and joins `PPU.HDMAEnded`; other channels unchanged |
| DmaEngine.SnesDma.EndNext | src/in_snsf/snes9x/dma.cpp:1320-1346 | one turn of the second loop extends `EndedBelow` and `EndPending` from d to d+1 and charges that channel's `EndCycles` |
| DmaEngine.SnesDma.EndLines | src/in_snsf/snes9x/dma.cpp:1320-1346 | the second loop meets `EndedBelow` for all eight channels and charges `EndCycles` |
| DmaEngine.SnesDma.HdmaLoops | src/in_snsf/snes9x/dma.cpp:1017-1346 | both loops together meet `LinesDone`: the bus effect of the first, then the bookkeeping of the second, from the pointers the first left |
| DmaEngine.SnesDma.RestoreAfterLines | src/in_snsf/snes9x/dma.cpp:1348-1351 | `InHDMA` cleared, `InDMAorHDMA` back to `InDMA`, and the saved WRAM flag and channel restored |
| DmaEngine.SnesDma.DoHdma | src/in_snsf/snes9x/dma.cpp:1002-1354 | one scanline of HDMA (`HdmaDone`), in terms of the state before the call: `DMACPUSync` charged, `HDMARanInDMA` set during a DMA, the flags and channel restored; the returned mask is a subset of byte |
| DmaEngine.SnesDma.HdmaDone | src/in_snsf/snes9x/dma.cpp:1002-1354 | the whole effect of `S9xDoHDMA(byte)`: both channel loops as `LinesDone` says, `HDMARanInDMA` set to byte during a DMA and 0 otherwise, and `InHDMA` cleared with `InDMAorHDMA` back to `InDMA` |
| DmaEngine.SnesDma.RestartTable | src/in_snsf/snes9x/dma.cpp:983-986 | an enabled channel's `Address` restarts at `AAddress` and its first header is read as `LineHeader` says |
| DmaEngine.SnesDma.StartChannel | src/in_snsf/snes9x/dma.cpp:979-994 | an enabled channel restarts its table; if the table is empty, its bit moves from `PPU.HDMA` to `PPU.HDMAEnded`; a disabled channel only gets `DoTransfer = false` (`StartOutcome`) |
| DmaEngine.SnesDma.StartEnabled | src/in_snsf/snes9x/dma.cpp:981-992 | an enabled channel's first header is `LineHeader` from `AAddress`; if the table is empty, its bit moves from `PPU.HDMA` to `PPU.HDMAEnded`; other channels unchanged |
| DmaEngine.SnesDma.StartChannels | src/in_snsf/snes9x/dma.cpp:979-994 | the channel loop of `S9xStartHDMA` meets `StartedBelow` for all eight channels and charges `StartCycles` |
| DmaEngine.SnesDma.StartNext | src/in_snsf/snes9x/dma.cpp:978-994 | one turn of the start loop extends `StartedBelow` and `PendingFrom` from i to i+1 and charges that channel's header cycles |
| DmaEngine.SnesDma.StartLoop | src/in_snsf/snes9x/dma.cpp:978-999 | from the state the entry left, the loop and the restore meet `HdmaStarted` |
| DmaEngine.SnesDma.RestoreAfterStart | src/in_snsf/snes9x/dma.cpp:996-999 | `InHDMA` cleared, `InDMAorHDMA` back to `InDMA`, `HDMARanInDMA` is `PPU.HDMA` during a DMA and 0 otherwise, and the channel restored |
| DmaEngine.SnesDma.StartHdma | src/in_snsf/snes9x/dma.cpp:965-1000 | `PPU.HDMA` is loaded from `$420C` and `HDMAEnded` is cleared; `DMACPUSync` is charged when some channel is enabled; every channel is as `StartOutcome` says; `HDMARanInDMA = InDMA ? HDMA : 0`; the flags are restored (`HdmaStarted`) |
| DmaEngine.SnesDma.HdmaStarted | src/in_snsf/snes9x/dma.cpp:965-1000 | the whole effect of `S9xStartHDMA`: each channel as `StartOutcome` says, `DMACPUSync` plus the header cycles charged, `HDMARanInDMA = InDMA ? HDMA : 0` and the flags restored |
| DmaEngine.SnesDma.ResetDma | src/in_snsf/snes9x/dma.cpp:1356-1374 | every one of the eight channels is in the power-on record: flags set, mode 7, all-ones registers, no repeat, 0x7F lines, no transfer |
| DmaSpec.DmaPattern | src/in_snsf/snes9x/dma.cpp:173-321 | the DMA register offsets per mode are one, two or four offsets in 0..3, starting at 0 |
| DmaSpec.HdmaPattern | src/in_snsf/snes9x/dma.cpp:1066-1120 | the HDMA register offsets per mode are one, two or four offsets in 0..3, starting at 0 |
| DmaSpec.PatternsOfModes | src/in_snsf/snes9x/dma.cpp:1066-1120 | DMA mode 5 is mode 1 and modes 2/6 are mode 0, while HDMA modes 2/6 and 5 repeat those groups twice (mode 5 moves four bytes) |
| DmaSpec.ModeByteCountsArePatternLengths | src/in_snsf/snes9x/dma.cpp:1055 | `HDMA_ModeByteCounts` is the length of each mode's HDMA pattern |
| DmaSpec.DmaOffset | src/in_snsf/snes9x/dma.cpp:173-640 | the register offset of byte i lies in 0..3 and belongs to the mode's pattern |
| DmaSpec.DmaOffsetPeriodic | src/in_snsf/snes9x/dma.cpp:636-651 | a byte's register offset depends only on its position modulo the group length, so splitting a transfer into chunks never changes the register sequence |
| DmaSpec.DmaCount | src/in_snsf/snes9x/dma.cpp:90-93 | a count register of 0 means 0x10000 bytes; any other value is its own count, so the count is congruent to the register mod 2^16 |
| DmaSpec.InvalidDma | src/in_snsf/snes9x/dma.cpp:47 | the invalid kind is exactly a CPU-to-PPU DMA from bank $7E or $7F to $2180 |
| DmaSpec.CountEndsAtZero | src/in_snsf/snes9x/dma.cpp:149-161 | after the transfer, the channel's 16-bit count register is 0 exactly when every byte of the count was stepped, and so whenever the transfer completed |
| DmaSpec.Stepped | src/in_snsf/snes9x/dma.cpp:149-161 | k byte steps change only the count register and `AAddress`; bank, B address, mode, table address and transfer flag stay |
| DmaSpec.SteppedNext | src/in_snsf/snes9x/dma.cpp:149-161 | one more `UPDATE_COUNTERS` step from k steps is k+1 steps |
| DmaSpec.DmaPlan | src/in_snsf/snes9x/dma.cpp:47-118 | the transfer plan: invalid exactly for WRAM to $2180; count by `DmaCount`; `inc` 0 when fixed, otherwise -1 exactly when decrementing; S-DD1 when enabled, fixed and `$4801 > 0`; invalid transfers step +1 |
| DmaSpec.RunEvents | src/in_snsf/snes9x/dma.cpp:24-25 | events run until `Cycles < NextEvent`; cycles unchanged; nothing happens when no event is due |
| DmaSpec.DmaTick | src/in_snsf/snes9x/dma.cpp:19-37 | one byte costs exactly `SLOW_ONE_CYCLE`, leaves the next event in the future and clears `HDMARanInDMA` |
| DmaSpec.DmaSteps | src/in_snsf/snes9x/dma.cpp:154-159 | a transfer of n bytes performs at most n steps; all n when it completes; at least one when it stops early |
| DmaSpec.DmaStepsCycles | src/in_snsf/snes9x/dma.cpp:19-37 | the byte steps cost exactly `SLOW_ONE_CYCLE` each; events add nothing |
| DmaSpec.DmaStepsStopped | src/in_snsf/snes9x/dma.cpp:27-33 | once a transfer stopped, a longer count does not change the outcome |
| DmaSpec.DmaStepsStopReason | src/in_snsf/snes9x/dma.cpp:27-33 | a transfer stops early exactly when the events after one of its steps ran an HDMA on its own channel (both directions) |
| DmaSpec.DmaStepsWithoutHdma | src/in_snsf/snes9x/dma.cpp:19-37 | when no event ever runs an HDMA, every byte is moved |
| DmaSpec.RunEventsKeepsMask | src/in_snsf/snes9x/dma.cpp:24-25 | events that run no HDMA leave `HDMARanInDMA` as it was |
| DmaSpec.FirstChunk | src/in_snsf/snes9x/dma.cpp:136 | the first chunk is 1..`MEMMAP_BLOCK_SIZE` bytes when the address moves |
| DmaSpec.ChunkStart | src/in_snsf/snes9x/dma.cpp:136-651 | the chunk holding byte i begins at 0 or at the first chunk's end plus whole blocks, at most a block before i |
| DmaSpec.ChunkUniform | src/in_snsf/snes9x/dma.cpp:645-651 | every byte of a chunk takes the chunk's path and WRAM flag, resolved at the chunk's first address |
| DmaSpec.WramSide | src/in_snsf/snes9x/dma.cpp:146 | an A address counts as WRAM when its bank is $7E/$7F, or bank bit 6 is clear and the address is below $2000 |
| DmaSpec.FastAt | src/in_snsf/snes9x/dma.cpp:136-146 | byte i takes the fast path when the decode buffer is the source or its chunk's block is directly mapped; the paired `WramAt` gives `InWRAMDMAorHDMA` for that chunk, never set for the decode buffer |
| DmaSpec.WramAt | src/in_snsf/snes9x/dma.cpp:645-651 | `InWRAMDMAorHDMA` for byte i's chunk, re-evaluated at each chunk start: `WramSide` of the chunk's first address, false for the decode buffer |
| DmaSpec.ChunkCursorNext | src/in_snsf/snes9x/dma.cpp:645-651 | after a whole chunk the next chunk starts at a block boundary with a full block to go |
| DmaSpec.CursorStep | src/in_snsf/snes9x/dma.cpp:149-161 | one byte on, the pattern phase `b` and the source position `p` are those of the next byte |
| DmaSpec.SourcePos | src/in_snsf/snes9x/dma.cpp:149-161 | the source offset of step i: i steps of the address increment from 0 in the decode buffer, or from `AAddress` in the channel's bank |
| DmaSpec.ForwardByte | src/in_snsf/snes9x/dma.cpp:139-146 | byte i comes from the S-DD1 decode buffer at `SourcePos` when decompression is active, otherwise from A-bus memory at the channel's bank and `SourcePos` |
| DmaSpec.PpuOut | src/in_snsf/snes9x/dma.cpp:173-640 | a byte writes its value to `0x2100 + BAddress + offset`, or nothing exactly for CGDATA, and for WMDATA from WRAM, on the fast path of modes 0/2/6; it goes through `S9xSetPPU` unless a direct register helper applies |
| DmaSpec.ForwardOut | src/in_snsf/snes9x/dma.cpp:173-640 | byte i of a forward DMA makes at most one B-bus write, and that write carries `ForwardByte` of i |
| DmaSpec.ForwardWrites | src/in_snsf/snes9x/dma.cpp:163-651 | the B-bus trace of the first k bytes, at most one write per byte; what each write is lies in `ForwardWriteAt` (write i is byte i's `PpuOut`) and `ForwardWritesEveryByte` (every byte outside `MayDrop` reaches 0x2100 + BAddress + its mode offset) |
| DmaSpec.ForwardWritesCount | src/in_snsf/snes9x/dma.cpp:163-651 | when each byte writes once, k bytes give exactly k writes |
| DmaSpec.ForwardWriteAt | src/in_snsf/snes9x/dma.cpp:163-651 | when each byte writes once, write i is byte i's |
| DmaSpec.ForwardWritesEveryByte | src/in_snsf/snes9x/dma.cpp:163-651 | except for CGDATA/WMDATA in modes 0/2/6, write i carries byte i (from memory or the S-DD1 buffer) to `0x2100 + BAddress + pattern[i mod len]` |
| DmaSpec.Sdd1ZeroBufferWritesZero | src/in_snsf/snes9x/dma.cpp:97-118 | over the decode buffer as dma.cpp leaves it (all zeros), every write of an S-DD1 DMA carries 0 |
| DmaSpec.ForwardWritesSlow | src/in_snsf/snes9x/dma.cpp:173-321 | on the slow path every byte goes through `S9xSetPPU` |
| DmaSpec.ReverseTarget | src/in_snsf/snes9x/dma.cpp:659-670 | a reverse DMA stores byte i in the channel's own bank |
| DmaSpec.ReverseMem | src/in_snsf/snes9x/dma.cpp:653-886 | memory after k bytes of a reverse DMA stays 16 MiB; `ReverseMemHoldsEveryByte`, `ReverseMemOtherBanks` and `ReverseMemFixed` say what it holds |
| DmaSpec.ReverseValue | src/in_snsf/snes9x/dma.cpp:677-886 | byte i of a reverse DMA is the r0+i-th PPU read, of register 0x2100 + BAddress + the mode's offset for i |
| DmaSpec.ReallySlowReverse | src/in_snsf/snes9x/dma.cpp:672 | the really-slow reverse path is taken for BAddress in $7D..$83 with bank bit 6 clear |
| DmaSpec.ReverseWram | src/in_snsf/snes9x/dma.cpp:672-792 | `InWRAMDMAorHDMA` for byte i of a reverse DMA: on the really-slow path whether byte i's address is below $2000, otherwise whether the bank is $7E/$7F |
| DmaSpec.ReverseCpu | src/in_snsf/snes9x/dma.cpp:672-792 | after j bytes of a reverse DMA only the really-slow path has touched the CPU flags, and only `InWRAMDMAorHDMA`, set from the last byte moved |
| DmaSpec.ReverseMemOtherBanks | src/in_snsf/snes9x/dma.cpp:653-896 | a reverse DMA changes nothing outside its bank |
| DmaSpec.AddrInjective | src/in_snsf/snes9x/dma.cpp:659-670 | stepping by ±1 visits 0x10000 distinct 16-bit addresses |
| DmaSpec.ReverseTargetsDiffer | src/in_snsf/snes9x/dma.cpp:659-670 | two different bytes of a stepping reverse DMA of at most 0x10000 bytes land at different addresses |
| DmaSpec.ReverseMemHoldsEveryByte | src/in_snsf/snes9x/dma.cpp:653-896 | with a stepping address, every byte read by a reverse DMA of up to 0x10000 bytes is stored at its own address |
| DmaSpec.ReverseMemFixed | src/in_snsf/snes9x/dma.cpp:653-896 | with a fixed address the last byte read is the one that stays |
| DmaSpec.ReverseByteAt | src/in_snsf/snes9x/dma.cpp:677-886 | the loop's record and phase give byte j's address and PPU read |
| HdmaSpec.GetWord | src/in_snsf/snes9x/dma.cpp:929 | a 16-bit read is the low byte at a, then the high byte at a+1 |
| HdmaSpec.MemPointer | src/in_snsf/snes9x/dma.cpp:957-960 | a pointer is null exactly for an unmapped block, and otherwise stands for the address it was taken for |
| HdmaSpec.HeaderOf | src/in_snsf/snes9x/dma.cpp:938-947 | a nonzero header announces 1..128 lines |
| HdmaSpec.HeaderRoundTrip | src/in_snsf/snes9x/dma.cpp:938-947 | every nonzero header byte is the encoding of its group; every group of 1..127 lines, or 128 lines sent once, decodes from its encoding |
| HdmaSpec.DataBase | src/in_snsf/snes9x/dma.cpp:1024-1035 | `ShiftedIBank + IAddr` lies in the data bank at the data address |
| HdmaSpec.TableEnd | src/in_snsf/snes9x/dma.cpp:914-936 | a zero header ends the table: pointer null, `Repeat` false, 128 lines; `Address` advances 1, 2 or 3 bytes (3 when a higher channel is enabled), at one cycle per byte |
| HdmaSpec.GroupStart | src/in_snsf/snes9x/dma.cpp:938-962 | a nonzero header starts a group: `DoTransfer`, 1..128 lines, the header's encoding, `Address` +1 (+3 indirect), and a pointer in step with the data |
| HdmaSpec.LineHeader | src/in_snsf/snes9x/dma.cpp:907-963 | `HDMAReadLineCount`: the result is true exactly when the header is nonzero, with the group and pointer facts of each case; `Address` advances by the header bytes at one cycle each; only `Address`, the indirect address, `Repeat`, `LineCount` and `DoTransfer` change |
| HdmaSpec.LineHeaderEndIndirect | src/in_snsf/snes9x/dma.cpp:919-931 | on a zero header an indirect channel loads its indirect address from the zero byte's position, one byte later when a higher channel is enabled |
| HdmaSpec.LineHeaderIndirect | src/in_snsf/snes9x/dma.cpp:949-956 | on a nonzero header an indirect channel loads its indirect address from the two bytes after the header |
| HdmaSpec.LineHeaderAbove | src/in_snsf/snes9x/dma.cpp:921 | only the enabled channels above d affect `HDMAReadLineCount(d)` |
| HdmaSpec.LineBytes | src/in_snsf/snes9x/dma.cpp:1055 | a line moves `HDMA_ModeByteCounts[mode]` bytes, the length of the HDMA pattern, 1..4 |
| HdmaSpec.CrossesBlock | src/in_snsf/snes9x/dma.cpp:1055 | a CPU-to-PPU line takes the really-slow path when its data runs into the next memory block |
| HdmaSpec.PathOf | src/in_snsf/snes9x/dma.cpp:1053-1135 | the path of a CPU-to-PPU line: really slow when it crosses a block, otherwise fast through a cached pointer or slow without one |
| HdmaSpec.InsideBlock | src/in_snsf/snes9x/dma.cpp:1122-1135 | a line that does not run into the next block does not wrap around its bank |
| HdmaSpec.LinePtrIn | src/in_snsf/snes9x/dma.cpp:1037-1038 | a null pointer is fetched and a cached one is kept; a pointer in step with the data stays in step |
| HdmaSpec.LineSource | src/in_snsf/snes9x/dma.cpp:1057-1245 | every path reads a 24-bit address |
| HdmaSpec.LineWrites | src/in_snsf/snes9x/dma.cpp:1053-1245 | a line of k bytes writes k times |
| HdmaSpec.LineWriteAt | src/in_snsf/snes9x/dma.cpp:1053-1245 | write i carries byte i of the line to `0x2100 + BAddress + HdmaPattern[i]` through `S9xSetPPU` |
| HdmaSpec.LinePathsAgree | src/in_snsf/snes9x/dma.cpp:1053-1245 | with a pointer in step with the data, the fast and slow paths send exactly what the really-slow path sends |
| HdmaSpec.LineTarget | src/in_snsf/snes9x/dma.cpp:1252-1258 | a reverse line stores at a 24-bit address |
| HdmaSpec.LineStores | src/in_snsf/snes9x/dma.cpp:1247-1316 | a reverse line keeps memory 2^24 bytes long |
| HdmaSpec.LineTargetsDiffer | src/in_snsf/snes9x/dma.cpp:1247-1316 | the bytes of a reverse line land at distinct addresses |
| HdmaSpec.LineStoresHold | src/in_snsf/snes9x/dma.cpp:1247-1316 | after a reverse line each byte holds its pattern register's read, and every other address is unchanged |
| HdmaSpec.LineBus | src/in_snsf/snes9x/dma.cpp:1040-1316 | a channel's line keeps memory 2^24 bytes long, and has no bus effect unless `DoTransfer` |
| HdmaSpec.TransferBus | src/in_snsf/snes9x/dma.cpp:1053-1316 | a transferring line keeps memory at 16 MiB; its bytes go to the PPU along `PathOf` or come back into memory (`LineStores`), at `SLOW_ONE_CYCLE` each |
| HdmaSpec.TransferPtr | src/in_snsf/snes9x/dma.cpp:1053-1316 | after a transferring line the cached pointer is null on the reverse and really-slow paths, null on the slow path, and moved past the line's bytes on the fast path |
| HdmaSpec.LinePtrOut | src/in_snsf/snes9x/dma.cpp:1037-1316 | the cached pointer after a channel's line: fetched when null (`LinePtrIn`), then changed by `TransferPtr` only when the channel transfers |
| HdmaSpec.LinesBus | src/in_snsf/snes9x/dma.cpp:1017-1318 | the first loop's bus effect keeps memory 2^24 bytes long |
| HdmaSpec.LinesPtrs | src/in_snsf/snes9x/dma.cpp:1017-1318 | the first loop changes only the pointers of channels in the mask, each as `LinePtrOut` says |
| HdmaSpec.AnyOamFixNext | src/in_snsf/snes9x/dma.cpp:1044-1050 | the OAM fix-up has happened among channels below d+1 exactly when it happened below d or on channel d |
| HdmaSpec.SentStep | src/in_snsf/snes9x/dma.cpp:1017-1318 | one channel's turn extends the first loop's pointers, bus effect and OAM state from channels below d to channels below d+1 |
| HdmaSpec.LineAdvance | src/in_snsf/snes9x/dma.cpp:1324-1334 | the data address moves past a line that transferred, mod 2^16, in the same bank; `DoTransfer = !Repeat`; the line counter drops by one (0 wraps to 0xFF) |
| HdmaSpec.EndLine | src/in_snsf/snes9x/dma.cpp:1322-1344 | a channel whose table ended stops transferring and has a null pointer |
| HdmaSpec.EndLineKeepsSync | src/in_snsf/snes9x/dma.cpp:1037-1344 | a scanline keeps a channel's cached pointer in step with its data address, whichever path the line took; a channel that goes on has lines left |
| HdmaSpec.EndStep | src/in_snsf/snes9x/dma.cpp:1320-1346 | one channel's turn extends the second loop's outcome from channels below d to channels below d+1; the higher channels are untouched |
| HdmaSpec.EndOutcome | src/in_snsf/snes9x/dma.cpp:1320-1346 | channel d after the second loop: enabled, it ends its line, stays in the mask exactly when its table goes on and joins `HDMAEnded` when it ends; otherwise it is untouched |
| HdmaSpec.EndCycles | src/in_snsf/snes9x/dma.cpp:1320-1346 | the cycles of the second loop are the sum of `EndLine` cycles of the enabled channels |
| HdmaSpec.StartStep | src/in_snsf/snes9x/dma.cpp:979-994 | one channel's turn extends the start-of-frame outcome from channels below i to channels below i+1; the higher channels are untouched |
| HdmaSpec.StartOutcome | src/in_snsf/snes9x/dma.cpp:978-994 | channel d after `S9xStartHDMA`: enabled, it restarts at `AAddress`, reads its first header and stays enabled exactly when the table is not empty, ended exactly when it is; disabled, it stops transferring |
| HdmaSpec.StartCycles | src/in_snsf/snes9x/dma.cpp:978-994 | the header cycles `S9xStartHDMA` charges are the sum of `LineHeader` cycles of the enabled channels |
| SseqStream.LE | src/in_ncsf/SSEQPlayer/common.h:86-92 | n bytes read least significant first give a value below 256^n |
| SseqStream.LEBytes | src/in_ncsf/SSEQPlayer/common.h:86-92 | the n bytes of v, least significant first; `LERoundTrip` and `LEBytesOfLE` make it the inverse of `LE` |
| SseqStream.LERoundTrip | src/in_ncsf/SSEQPlayer/common.h:86-92 | storing a value in n little-endian bytes and reading them back gives the value mod 256^n |
| SseqStream.LEBytesOfLE | src/in_ncsf/SSEQPlayer/common.h:86-92 | reading n bytes and storing the value back in n bytes gives the same bytes |
| SseqStream.LEFront | src/in_ncsf/SSEQPlayer/common.h:88-90 | the first byte read is the low byte |
| SseqStream.ReadLEFrom | src/in_ncsf/SSEQPlayer/common.h:86-92 | free `ReadLE<T>(arr)` returns the value whose `sizeof(T)` little-endian bytes are `arr[..sizeof(T)]` |
| SseqStream.NulAt | src/in_ncsf/SSEQPlayer/common.h:64-75 | the first NUL at or after a position |
| SseqStream.PseudoFile.constructor | src/in_ncsf/SSEQPlayer/common.h:23-30 | a reader over a byte vector starts at position 0 |
| SseqStream.PseudoFile.ReadLE | src/in_ncsf/SSEQPlayer/common.h:32-38 | `ReadLE<T>()` returns the little-endian value of the next `sizeof(T)` bytes and advances `pos` by `sizeof(T)` |
| SseqStream.PseudoFile.ReadLEArray | src/in_ncsf/SSEQPlayer/common.h:40-56 | the array and vector overloads read n values of `sizeof(T)` bytes each, value i from bytes i·size..(i+1)·size, and advance `pos` by n·`sizeof(T)` |
| SseqStream.PseudoFile.ReadBytes | src/in_ncsf/SSEQPlayer/common.h:46-62 | the byte-array overloads copy the next n bytes as they are and advance `pos` by n |
| SseqStream.PseudoFile.ReadNullTerminatedString | src/in_ncsf/SSEQPlayer/common.h:64-75 | the result is the bytes before the next NUL and contains no NUL; `pos` moves one past that NUL |
| SseqStream.VlSpan | src/in_ncsf/SSEQPlayer/common.h:258-269 | readvl consumes bytes up to and including the first byte with bit 7 clear |
| SseqStream.VlValue | src/in_ncsf/SSEQPlayer/common.h:258-269 | the value `readvl` accumulates: the 7-bit groups of the bytes, most significant first, bit 7 ignored |
| SseqStream.VlEncode | src/in_ncsf/SSEQPlayer/common.h:258-269 | the encoder's last byte has bit 7 clear |
| SseqStream.VlRoundTrip | src/in_ncsf/SSEQPlayer/common.h:258-269 | readvl of an encoded value, whatever follows it, stops exactly after the encoding and returns the value; values below 2^28 take at most four bytes |
| SseqStream.VlValueBound | src/in_ncsf/SSEQPlayer/common.h:258-269 | k bytes carry fewer than 7k bits |
| SseqStream.VlValuePrefix | src/in_ncsf/SSEQPlayer/common.h:258-269 | the groups read so far never exceed the whole integer, so the accumulator peaks at its last shift |
| SseqStream.VlShortFitsInt | src/in_ncsf/SSEQPlayer/common.h:258-269 | every integer of at most four bytes keeps `readvl`'s `int` accumulator from overflowing |
| SseqStream.ByteCursor.constructor | src/in_ncsf/SSEQPlayer/common.h:235-241 | a cursor at a position in a buffer |
| SseqStream.ByteCursor.Read8 | src/in_ncsf/SSEQPlayer/common.h:235-241 | `read8` returns the byte under the cursor and advances by one |
| SseqStream.ByteCursor.Read16 | src/in_ncsf/SSEQPlayer/common.h:243-248 | `read16` returns b0 + 256·b1, the little-endian value of two bytes, and advances by two |
| SseqStream.ByteCursor.Read24 | src/in_ncsf/SSEQPlayer/common.h:250-256 | `read24` returns b0 + 2^8·b1 + 2^16·b2, the little-endian value of three bytes, and advances by three |
| SseqStream.ByteCursor.ReadVL | src/in_ncsf/SSEQPlayer/common.h:258-269 | `readvl` advances by `VlSpan` and returns the 7-bit groups of those bytes, most significant first, a non-negative 32-bit `int` |
| SseqStream.HexValue | src/in_ncsf/SSEQPlayer/common.h:106-107 | a hex digit's value is below 16 |
| SseqStream.HexChar | src/in_ncsf/SSEQPlayer/common.h:107 | a nibble becomes a lower-case hex digit whose value is the nibble |
| SseqStream.ParseHex | src/in_ncsf/SSEQPlayer/common.h:100-110 | the value of a digit string is below 16^length; it inverts `HexDigits` (`HexDigitsRoundTrip`) |
| SseqStream.HexDigits | src/in_ncsf/SSEQPlayer/common.h:102-108 | w nibbles give w digits |
| SseqStream.HexDigitsRoundTrip | src/in_ncsf/SSEQPlayer/common.h:100-110 | every digit is a lower-case hex digit; parsing the digits back gives num mod 16^w |
| SseqStream.NumToHexString | src/in_ncsf/SSEQPlayer/common.h:100-110 | "0x" followed by exactly 2·`sizeof(T)` lower-case hex digits, most significant first, which parse back to num mod 2^(8·`sizeof(T)`), negative values included |
| SseqStream.VerifyHeader | src/in_ncsf/SSEQPlayer/common.h:126-130 | true exactly when the header has the array's length and agrees with it byte for byte, NULs included |
| SseqTables.CnvAttack | src/in_ncsf/SSEQPlayer/common.h:135-146 | a setting with bit 7 set converts like 0 |
| SseqTables.AttackTableMonotone | src/in_ncsf/SSEQPlayer/common.h:137-141 | the attack table is strictly increasing |
| SseqTables.AttackDecreasing | src/in_ncsf/SSEQPlayer/common.h:135-146 | the attack rate is strictly decreasing over the settings 0..0x7F |
| SseqTables.CnvFall | src/in_ncsf/SSEQPlayer/common.h:148-160 | a setting with bit 7 set converts like 0, to 1; the divisor `0x7E - fall` stays in 1..0x4C, never zero; the rate is at least 1 |
| SseqTables.FallQuotientDecreasing | src/in_ncsf/SSEQPlayer/common.h:159 | 0x1E00 / d strictly decreases over the divisors 1..0x4C |
| SseqTables.FallBands | src/in_ncsf/SSEQPlayer/common.h:152-159 | below 0x32 the rate is 2f+1 ≤ 99; from 0x32 to 0x7D it is 0x1E00 / (0x7E - f), in 101..0x1E00 |
| SseqTables.FallIncreasing | src/in_ncsf/SSEQPlayer/common.h:148-160 | the fall rate is strictly increasing over the settings 0..0x7F, through 0x3C00 and 0xFFFF at the top |
| SseqTables.LevelTablesShape | src/in_ncsf/SSEQPlayer/common.h:162-214 | both level tables have 128 entries, only the last of which is 0 |
| SseqTables.LevelIndex | src/in_ncsf/SSEQPlayer/common.h:184-186 | a setting with bit 7 set uses index 0x7F; the index is always in 0..127 |
| SseqTables.CnvScale | src/in_ncsf/SSEQPlayer/common.h:162-187 | the scale is an attenuation in -32768..0; settings with bit 7 set give 0 |
| SseqTables.CnvSust | src/in_ncsf/SSEQPlayer/common.h:189-214 | the sustain level is an attenuation in -32768..0; settings with bit 7 set give 0 |
| SseqTables.LevelZeroOnlyAtTop | src/in_ncsf/SSEQPlayer/common.h:162-214 | scale and sustain are 0 exactly for settings 0x7F and above |
| SseqTables.SineTableBounds | src/in_ncsf/SSEQPlayer/common.h:218-222 | the sine table has 33 entries from 0 to 127, all in 0..127 |
| SseqTables.SineLookup | src/in_ncsf/SSEQPlayer/common.h:223-232 | the index and sign `Cnv_Sine` takes per quarter, as written, which reads `lut[33]` at arguments 33 and 99 (`SineLookupOutOfRange`) |
| SseqTables.SineLookupOutOfRange | src/in_ncsf/SSEQPlayer/common.h:223-232 | arguments 33 and 99 index `lut[33]`, one past the end of the table |
| SseqTables.CnvSine | src/in_ncsf/SSEQPlayer/common.h:216-233 | on the arguments that stay inside the table, the result lies in -127..127 and is non-negative in the first half wave |
| SseqTables.CnvSineOddHalf | src/in_ncsf/SSEQPlayer/common.h:216-233 | `Cnv_Sine(a + 66) == -Cnv_Sine(a)` for 0 ≤ a < 66, a ≠ 33 |
| SseqTables.CnvSineQuarter | src/in_ncsf/SSEQPlayer/common.h:216-233 | the corrected wave of period 128 stays in -127..127 and is non-negative in its first half |
| SseqTables.CnvSineQuarterShape | src/in_ncsf/SSEQPlayer/common.h:216-233 | the corrected wave is odd over a half period, symmetric about its peak at 32, and peaks at 127 |

## Left out

- `S9xDoHEventProcessing` and the APU sync it performs (dma.cpp:25) are the oracle `Env.event`. The oracle gives the next event position and the mask of an HDMA the event ran. Events add no cycles of their own in the model.
- The memory and register primitives `S9xGetByte`, `S9xSetByte`, `S9xGetWord`, `S9xGetPPU`, `S9xSetPPU`, `S9xGetBasePointer`, `S9xGetMemPointer` and `REGISTER_2104/2118/2119/2180` are not part of this model. Memory is a 2^24-byte sequence, PPU reads are the oracle `Env.ppuRead` (register, ordinal of the read), and PPU writes are a trace tagged with the helper that received them. What the PPU does with a write is not modelled.
- Host pointers (`base`, `HDMAMemPointers`) are the 24-bit address they were taken for. A read through a pointer is the mapped byte at that address. Raw pointer arithmetic past a block cannot be checked in this form.
- The S-DD1 decode buffer is an input (`Env.sdd1Buffer`). In dma.cpp as written, the buffer is file-local and never filled (dma.cpp:17, 114): it stays zero, so every S-DD1 DMA sends zero bytes, as `DmaSpec.Sdd1ZeroBufferWritesZero` proves. The model's contracts hold for any buffer contents, of which the zero buffer is the source's case. The `in_ptr` computation at dma.cpp:110-112 is dead code and is omitted.
- `MEMMAP_BLOCK_SIZE` and `HDMA_ModeByteCounts` are defined outside dma.cpp (dma.cpp:15). The model fixes them at Snes9x's values, `DmaSpec.BlockSize` = 0x1000 and `DmaSpec.ModeByteCounts` = [1, 2, 2, 4, 4, 4, 2, 4], rather than taking them as parameters.
- `OpenBus` (dma.cpp:452, 1205) is modelled only as the byte that is written. The global open-bus value it also updates is not part of this model.
- The Uniracers OAM fix-up (dma.cpp:1044-1050) is only the two-field update of `oamAddr`/`oamFlip` under `Env.uniracers`.
- Memory-access cycle charges are not modelled. The engine runs with `CPU.InDMAorHDMA` set (dma.cpp:41, 971, 1009), so memory accesses charge no cycles; `CPU.InDMA` itself is set only by `S9xDoDMA`, so an HDMA at the start of a scanline runs with it clear.
- A DMA's own `HDMARanInDMA` result reaches the engine only through the event oracle. The nesting of a real `S9xDoHDMA` inside `S9xDoDMA` is not modelled.
- An invalid DMA steps `AAddress` by one per byte (dma.cpp:69), although the comment at dma.cpp:49-52 says an address is not incremented. That comment concerns the WRAM address in $2181-$2183, which is not part of this model. The model follows the code.
- `src/in_snsf/XSFConfig_SNSF.h` (the configuration dialog and settings persistence) is not part of this model. The `REC_*` record-type constants of common.h are not used by the modelled helpers.
- SseqStream.PseudoFile.ReadLE: returns the unsigned value of the bytes. For a signed `T` the source's value is that number reinterpreted in two's complement. 64-bit `T` is excluded by `IntegralSize`, because the source shifts its upper bytes as `int`.
- SseqStream.PseudoFile.ReadLEArray: the same restriction to 1-, 2- and 4-byte element types, and each element is the unsigned value of its bytes; the array and vector overloads call `ReadLE<T>()`, so a signed `T` would store the two's-complement value.
- SseqStream.ReadLEFrom: the same restriction to 1-, 2- and 4-byte types, and the same unsigned result.
- SseqStream.PseudoFile.ReadNullTerminatedString: requires a NUL before the end of the data. Without one, the source reads past the vector.
- SseqStream.ByteCursor.ReadVL: requires the groups before the last byte to fit in 24 bits (`VlFitsInt`), which every integer of at most four bytes does. Otherwise the source's `int` accumulator overflows on its last shift, which C++ leaves undefined.
- SseqTables.CnvSine: defined only on 0..132 without 33 and 99. Elsewhere the source indexes outside its table (see Findings).
- SseqTables.CnvAttack, CnvFall, CnvScale and CnvSust take an 8-bit setting. An `int` argument outside 0..255 is not modelled; for `Cnv_Attack` it could index outside its table.

## Findings

| source | as written | input that shows it | evidently intended | confidence | as-written member | corrected member |
|---|---|---|---|---|---|---|
| src/in_ncsf/SSEQPlayer/common.h:223-228 | `lut_size` is the entry count of the table, 33, so the second quarter reads `lut[2 * 33 - arg]` | `Cnv_Sine(33)` reads `lut[33]`, and `Cnv_Sine(99)` reads `-lut[33]`: one entry past the end of a 33-entry table | the table holds a quarter wave of 32 steps plus its peak (127·sin(πi/64), i = 0..32), so the quarter is 32 and the wave has period 128, with every lookup inside the table | medium, not executed | SseqTables.SineLookupOutOfRange | SseqTables.CnvSineQuarterShape |
