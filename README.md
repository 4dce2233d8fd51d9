# pyemu core in Dafny

pyemu is a small interpreter for 64-bit RISC-V. Two components make up its core:

- a flat byte store, `Dram` (src/dram.py);
- a CPU (src/cpu.py), made of a register file `XRegisters`, a program counter and one `Dram`.

The CPU repeatedly fetches the little-endian word at `pc` and adds 4 to `pc`. It then executes one of seven opcodes: ADDI, ADD, LW, SW, BEQ, JALR and JAL. It stops at the first opcode it does not recognise.

This project models that core in two layers.

**Values.** These modules describe every operation as a function:

- `Bytes`: little-endian serialisation and two's-complement sign extension.
- `Memory`: slices, overwrites and image preloading on `seq<bv8>`.
- `Decode`: instruction fields and immediates, exactly as the code assembles them.
- `Registers`: the register file as `seq<bv64>`.
- `Semantics`: `Machine`, `Exec`, `Step` and a fuel-bounded `Run`.

**Objects.** These are the source's own classes, updating their fields in place:

- `Memory.Dram` over an `array<bv8>`;
- `Emulator.XRegisters` over a `seq<bv64>` field;
- `Emulator.Cpu`, which owns both and a `pc`.

Every method is proved to leave exactly the state the value layer describes. `Execution` and `Running` hold the properties:

- what each opcode does, and what it leaves alone;
- that the immediates agree with section 2.3 of the RISC-V Unprivileged ISA manual (version 20191213);
- store/load round trips;
- how `run`'s loop stops, and how runs with different budgets compose.

Registers and `pc` are `bv64`, so NumPy `uint64` arithmetic wraps modulo 2^64 as in the code. Instructions are `bv32`.

The model follows the code, including where it departs from the ISA manual:

- Register 0 is an ordinary register, although section 2.1 of the ISA manual hard-wires x0 to zero. A write to it is kept; only `dump`, at the end of `run`, zeroes it.
- Register indices outside 0..31 are ignored on write and give nothing on read; they do not fail.
- Opcodes 0x13 and 0x33 ignore funct3 and funct7, and JALR ignores funct3.
- A load with funct3 other than 2 writes 0 to rd.
- A store or branch with any other funct3 does nothing.
- Loads are Python slices: a read that runs past the end of memory comes back short and is not an error. LW then sign-extends the shorter value, and returns 0 entirely past the end.
- A fetch of fewer than four bytes raises IndexError in the code; the model stops the run with `FetchFault`.

## Model

| member | source | states |
|---|---|---|
| `Bytes.LeBytes` | src/cpu.py:102-103 | serialising a value gives `n` bytes, the first one its lowest byte |
| `Bytes.LeValueOfBytes` | src/cpu.py:102-103 | reading `n` serialised bytes back in little-endian order gives the value masked to its low `n` bytes |
| `Bytes.LeRoundTrip` | src/dram.py:27-28 | the eight-byte serialisation of a 64-bit value reads back as that value |
| `Bytes.LowWord` | src/cpu.py:102-107 | the first four serialised bytes hold the low 32 bits of the value |
| `Bytes.LeBytesPrefix` | src/dram.py:29 | keeping the first `n` of the eight serialised bytes is the `n`-byte serialisation |
| `Bytes.SignedLe` | src/cpu.py:61-66 | a signed little-endian read of no bytes gives 0 |
| `Bytes.LeValueFits` | src/cpu.py:65 | the unsigned little-endian value of `n` bytes has no bit set above its low `n` bytes |
| `Bytes.LeValueSign` | src/cpu.py:65 | the sign bit of an `n`-byte little-endian value is the top bit of its last byte |
| `Bytes.SignExtendNegative` | src/cpu.py:65-66 | sign-extending a negative `n`-byte field with nothing above it sets every bit above the field |
| `Bytes.SignedLeNonNegative` | src/cpu.py:61-66 | one to eight bytes whose last byte has its top bit clear read as their unsigned little-endian value, so every higher bit is 0 |
| `Bytes.SignedLeNegative` | src/cpu.py:61-66 | one to eight bytes whose last byte has its top bit set read as their unsigned little-endian value with every bit above the last byte set |
| `Bytes.SignedLeWord` | src/cpu.py:65 | a four-byte signed read is the word sign-extended from bit 31 |
| `Bytes.SignExtendWord` | src/cpu.py:65-66 | widening a 32-bit word keeps its low word and fills the high word with copies of bit 31 |
| `Memory.Zeros` | src/dram.py:6 | a fresh buffer has `size` bytes, all zero |
| `Memory.SliceAt` | src/dram.py:21-23 | a load has length `max(0, min(n, size - addr))`, and its byte `k` is the byte at `addr + k` |
| `Memory.Overwrite` | src/dram.py:25-29 | a store keeps the length, puts `data[k - addr]` at each `k` in `[addr, addr+n)` and leaves every other byte |
| `Memory.Preloaded` | src/dram.py:9-13 | preloading keeps the length, puts the image at address 0 as far as it fits, and leaves later bytes |
| `Memory.LoadAfterStore` | src/dram.py:21-29 | after an in-bounds store of `n` bytes, a load of the same range returns `data[:n]` |
| `Memory.LoadElsewhere` | src/dram.py:21-29 | a store does not change a load of a range that does not overlap it |
| `Memory.StoreIntBytes` | src/dram.py:25-29 | storing integer data writes its low `n` bytes in little-endian order |
| `Memory.PreloadIdempotent` | src/dram.py:15-19 | loading the same image twice gives the same buffer as loading it once |
| `Memory.Dram.constructor` | src/dram.py:5-13 | the buffer has `size` bytes (0x10000 by default), zero except for the preloaded image |
| `Memory.Dram.LoadBin` | src/dram.py:15-19 | the buffer becomes the old buffer with the image preloaded |
| `Memory.Dram.Load` | src/dram.py:21-23 | the result is the clipped slice of the buffer; nothing changes |
| `Memory.Dram.Store` | src/dram.py:25-29 | the buffer becomes the old buffer overwritten at `[addr, addr+n)`; its loop keeps that equation for the bytes written so far |
| `Memory.Dram.StoreInt` | src/dram.py:25-29 | the buffer is overwritten with the first `n` of the value's eight little-endian bytes |
| `Registers.InitialRegs` | src/cpu.py:6-17 | after construction there are 32 registers, all 0 except `sp` (x2) = 0x7FF_FFFF |
| `Registers.WriteReg` | src/cpu.py:26-30 | a write keeps the register file at 32 entries |
| `Registers.Dumped` | src/cpu.py:35 | `dump` keeps the register file at 32 entries |
| `Registers.DumpedRegisters` | src/cpu.py:35 | after `dump`, register 0 reads 0 and every other register reads as before |
| `Registers.StackPointerIsTop` | src/cpu.py:17 | the initial `sp` is `DRAM_SIZE - 1` |
| `Registers.InitialStackPointer` | src/cpu.py:8-17 | reading a fresh register file gives 0x7FF_FFFF for `sp` and 0 for every other register |
| `Registers.ReadAfterWrite` | src/cpu.py:20-30 | a register, register 0 included, reads back the value last written to it |
| `Registers.ReadOtherAfterWrite` | src/cpu.py:20-30 | a write leaves every other index reading as before |
| `Registers.OutOfRange` | src/cpu.py:20-30 | a write outside 0..31 changes nothing, and a read outside it gives nothing |
| `Registers.ReadInRange` | src/cpu.py:20-24 | a read gives a value exactly when the index is in 0..31 |
| `Decode.Opcode` | src/cpu.py:70 | the opcode is below 0x80 (inst[6:0]) |
| `Decode.Rd` | src/cpu.py:71 | rd is a register index below 32 (inst[11:7]) |
| `Decode.Rs1` | src/cpu.py:72 | rs1 is a register index below 32 (inst[19:15]) |
| `Decode.Rs2` | src/cpu.py:73 | rs2 is a register index below 32 (inst[24:20]) |
| `Decode.Funct3` | src/cpu.py:74 | funct3 is below 8 (inst[14:12]) |
| `Decode.Funct7` | src/cpu.py:75 | funct7 is below 0x80 (inst[31:25]) |
| `Decode.DecodeEncode` | src/cpu.py:70-75 | each field extracts the value it was encoded with |
| `Decode.EncodeDecode` | src/cpu.py:70-75 | the six fields cover the word: re-encoding them gives the instruction back |
| `Decode.Word` | src/cpu.py:56-59 | the fetched word's four bytes, least significant first, are the four bytes read |
| `Decode.ImmIManual` | src/cpu.py:80 | the I-immediate is inst[31:20], sign-extended from bit 11 |
| `Decode.ImmLoadIsImmI` | src/cpu.py:89 | the load's unmasked shift gives the same offset as the I-immediate |
| `Decode.ImmIAllOnes` | src/cpu.py:80 | an I-field of 0xFFF gives 0xFFFF_FFFF_FFFF_FFFF |
| `Decode.ImmSManual` | src/cpu.py:99-100 | the S-immediate is {inst[31:25], inst[11:7]}, sign-extended from bit 11 |
| `Decode.ImmBManual` | src/cpu.py:110-113 | the B-immediate is {inst[31], inst[7], inst[30:25], inst[11:8], 0}, sign-extended from bit 12, and even |
| `Decode.ImmJManual` | src/cpu.py:130-133 | the J-immediate is {inst[31], inst[19:12], inst[20], inst[30:21], 0}, sign-extended from bit 20, and even |
| `Decode.DecodeAddi` | src/cpu.py:70-80 | 0x00100093 has opcode 0x13, rd 1, rs1 0, funct3 0 and immediate 1 |
| `Semantics.Boot` | src/cpu.py:51-54 | a fresh CPU with an image loaded: `pc` 0, 0x10000 bytes of memory holding the image then zeros, registers as constructed |
| `Semantics.Fetch` | src/cpu.py:56-59 | a fetch yields a word exactly when four bytes are left at `pc` |
| `Semantics.FetchWord` | src/cpu.py:56-59 | where four bytes are left, the fetched word is assembled from exactly the four bytes at `pc` |
| `Semantics.Exec` | src/cpu.py:68-138 | `execute` succeeds exactly for the seven recognised opcodes, changes nothing when it fails, and keeps the register count and memory size |
| `Semantics.Step` | src/cpu.py:143-151 | one iteration keeps the register count and memory size, and stops only for a fault or an unknown opcode |
| `Semantics.Iterate` | src/cpu.py:142-151 | a loop around a closed step function ends in a state the step accepts, with the memory size kept; with no budget nothing happens |
| `Semantics.StepClosed` | src/cpu.py:143-151 | a step keeps the machine well formed, keeps the memory size and never reports an exhausted budget |
| `Semantics.Run` | src/cpu.py:142-151 | a run keeps the register count and memory size; with no budget it stops at once, out of fuel |
| `Execution.DispatchOpImm` | src/cpu.py:79-82 | opcode 0x13 runs the ADDI case |
| `Execution.DispatchOp` | src/cpu.py:84-86 | opcode 0x33 runs the ADD case |
| `Execution.DispatchLoad` | src/cpu.py:88-96 | opcode 0x03 runs the load case |
| `Execution.DispatchStore` | src/cpu.py:98-107 | opcode 0x23 runs the store case |
| `Execution.DispatchBranch` | src/cpu.py:109-120 | opcode 0x63 runs the branch case |
| `Execution.DispatchJalr` | src/cpu.py:122-126 | opcode 0x67 runs the JALR case |
| `Execution.DispatchJal` | src/cpu.py:128-134 | opcode 0x6f runs the JAL case |
| `Execution.OpImmEffect` | src/cpu.py:79-82 | rd becomes rs1 + sign-extended inst[31:20] mod 2^64, whatever funct3 says; `pc` and memory are unchanged |
| `Execution.OpEffect` | src/cpu.py:84-86 | rd becomes rs1 + rs2 mod 2^64, whatever funct3 and funct7 say; `pc` and memory are unchanged |
| `Execution.LoadWordEffect` | src/cpu.py:88-96 | LW sets rd to `loadint` of four bytes at the load address; `pc` and memory are unchanged |
| `Execution.LoadAddressIsImmI` | src/cpu.py:89-90 | the load address is rs1 + I-immediate |
| `Execution.LoadIntWord` | src/cpu.py:61-66 | four bytes inside memory read as the sign-extended word; an address past the end reads 0 |
| `Execution.LoadIntShort` | src/cpu.py:61-66 | with one to three bytes left, a word load reads those bytes as an unsigned value, with every higher bit set when the last byte's top bit is set |
| `Execution.LoadOtherEffect` | src/cpu.py:91-96 | a load with funct3 other than 2 sets rd to 0 and changes nothing else |
| `Execution.LoadWordValue` | src/cpu.py:88-96 | LW inside memory sets rd to the little-endian word at rs1 + I-immediate, sign-extended from bit 31 |
| `Execution.StoreWordEffect` | src/cpu.py:98-107 | SW overwrites four bytes at rs1 + S-immediate with rs2's serialisation; registers and `pc` are unchanged |
| `Execution.StoredWord` | src/cpu.py:101-107 | after SW the four bytes read back as the low 32 bits of the value, and every other byte is unchanged |
| `Execution.StoreWordBytes` | src/cpu.py:98-107 | SW changes exactly bytes `[addr, addr+4)`, to the low 32 bits of rs2 in little-endian order |
| `Execution.StoreOtherEffect` | src/cpu.py:104-107 | a store with funct3 other than 2 changes nothing and succeeds |
| `Execution.LoadStoredWord` | src/cpu.py:95-107 | `loadint` of a word SW has just written gives the low 32 bits of the stored value, sign-extended |
| `Execution.BranchEffect` | src/cpu.py:109-120 | `pc` becomes advanced `pc` + B-immediate - 4 only for funct3 0 with rs1 == rs2, and stays otherwise; registers and memory are unchanged |
| `Execution.BranchKeepsParity` | src/cpu.py:110-120 | a branch keeps an even `pc` even |
| `Execution.JalrEffect` | src/cpu.py:122-126 | `pc` becomes (rs1 + I-immediate) & ~1, computed before rd is written, and is even; rd becomes the advanced `pc` |
| `Execution.JalEffect` | src/cpu.py:128-134 | rd becomes the advanced `pc`, and `pc` moves by J-immediate - 4 |
| `Execution.ZeroRegisterWritable` | src/cpu.py:79-82 | `addi x0, x0, 1` leaves 1 in register 0 |
| `Running.StepFetchFault` | src/cpu.py:143-144 | with fewer than four bytes at `pc`, the step stops with a fetch fault and nothing changed |
| `Running.StepStoreFault` | src/cpu.py:143-147 | a SW past the end of memory stops the step with only `pc` advanced |
| `Running.StepHalts` | src/cpu.py:135-151 | an unknown opcode stops the loop with `pc` advanced, register 0 zeroed by `dump` and nothing else changed |
| `Running.StepExecutes` | src/cpu.py:143-148 | a recognised instruction is executed with `pc` already advanced by 4 |
| `Running.IterateMonotone` | src/cpu.py:142-151 | a loop that stopped within its budget gives the same outcome with any larger budget |
| `Running.IterateSplit` | src/cpu.py:142-151 | a loop of `a + b` iterations is `a` iterations, then `b` more if it has not stopped |
| `Running.RunMonotone` | src/cpu.py:142-151 | a run that stopped within its budget gives the same outcome with any larger budget |
| `Running.RunSplit` | src/cpu.py:142-151 | a run of `a + b` steps is `a` steps, then `b` more if it has not stopped |
| `Running.RunUnfold` | src/cpu.py:142-151 | with budget left, a run is its first step followed by the rest of the run |
| `Running.RunFetchFault` | src/cpu.py:143-144 | a run whose first fetch fails stops there with nothing changed |
| `Running.RunStoreFault` | src/cpu.py:143-147 | a run whose first instruction is a SW past the end of memory stops after advancing `pc` |
| `Running.RunExecutes` | src/cpu.py:143-151 | otherwise a run continues after its first instruction, or ends with `dump` if the opcode is unknown |
| `Running.EmptyImageHalts` | src/cpu.py:142-151 | with no image, the all-zero word at address 0 stops the run on its first step with `pc` 4 |
| `Running.JalStep` | src/cpu.py:128-134 | JAL links rd to its own address + 4 and jumps from there by J-immediate - 4 |
| `Running.BranchStep` | src/cpu.py:109-120 | BEQ with rs1 == rs2 jumps from its own address + 4 by B-immediate - 4; every other branch goes on to its address + 4 |
| `Running.JalrStep` | src/cpu.py:122-126 | JALR links rd to its own address + 4 and jumps to (rs1 + I-immediate) & ~1 |
| `Running.AddiFromBoot` | src/cpu.py:79-82 | 0x00100093 at address 0 of a fresh machine leaves x1 == 1 and `pc` == 4 |
| `Running.BranchToSelfFromBoot` | src/cpu.py:109-120 | 0x00000063 (BEQ x0, x0, 0) at address 0 branches back to itself |
| `Emulator.XRegisters.constructor` | src/cpu.py:6-17 | a fresh register file is the initial register file |
| `Emulator.XRegisters.Read` | src/cpu.py:20-24 | a read gives a value exactly for indices 0..31, and it is the register's value |
| `Emulator.XRegisters.Write` | src/cpu.py:26-30 | the register list becomes the old list with one register written, or is unchanged for an index outside 0..31 |
| `Emulator.XRegisters.Dump` | src/cpu.py:32-35 | register 0 is zeroed; the printing is not modelled |
| `Emulator.Cpu.constructor` | src/cpu.py:51-54 | fresh registers, `pc` 0 and 0x10000 zero bytes |
| `Emulator.Cpu.Fetch` | src/cpu.py:56-59 | the word at `pc`, or nothing where the code raises IndexError |
| `Emulator.Cpu.LoadInt` | src/cpu.py:61-66 | the signed little-endian read of the clipped slice at `addr` |
| `Emulator.Cpu.StoreFits` | src/cpu.py:98-107 | decides whether the instruction is anything but a SW past the end of memory |
| `Emulator.Cpu.Execute` | src/cpu.py:68-138 | the result and the new registers, `pc` and memory are those of `Exec` on the old state |
| `Emulator.Cpu.ExecuteOpImm` | src/cpu.py:79-82 | the new state is the ADDI case on the old state |
| `Emulator.Cpu.ExecuteOp` | src/cpu.py:84-86 | the new state is the ADD case on the old state |
| `Emulator.Cpu.ExecuteLoad` | src/cpu.py:88-96 | the new state is the load case on the old state |
| `Emulator.Cpu.ExecuteStore` | src/cpu.py:98-107 | the new state is the store case on the old state |
| `Emulator.Cpu.ExecuteBranch` | src/cpu.py:109-120 | the new state is the branch case on the old state |
| `Emulator.Cpu.ExecuteJalr` | src/cpu.py:122-126 | the new state is the JALR case on the old state |
| `Emulator.Cpu.ExecuteJal` | src/cpu.py:128-134 | the new state is the JAL case on the old state |
| `Emulator.Cpu.Cycle` | src/cpu.py:143-151 | one iteration of the loop leaves the state `Step` gives and reports whether and why it stops |
| `Emulator.Cpu.Run` | src/cpu.py:142-151 | the status and the final state are those of `Run` on the starting state with the same budget |

## Left out

- src/pyemu.py, the command-line wrapper, is not part of this model: it only reads `sys.argv` and calls the core.
- File reading in `Dram.__init__` and `load_bin`: the image is a parameter of type `seq<bv8>`.
- The printing in `dump` and `execute`, and `logging.debug` in `run`: they are output only. `dump`'s reset of register 0 is modelled.
- NumPy version behaviour (float promotion with Python ints, `np.int32` of values above 2^31 raising or wrapping, `np.uint64` of negative ints): all arithmetic is exact two's complement modulo 2^64, with `np.int32` taken as a 32-bit reinterpretation.
- Host byte order: `tobytes()` is taken to be little-endian.
- Memory.Dram.Store: requires `addr + n <= size`, because a Python slice assignment past the end would grow the buffer; the model does not grow memory.
- Emulator.Cpu.Execute: requires a SW to lie inside memory, for the same reason. `Semantics.Step` and `Emulator.Cpu.Cycle` stop the run with `StoreFault` instead of growing the buffer. This gap is the common case for compiled code: `sp` starts at 0x7FF_FFFF while memory is 64 KiB, so every SW relative to an `sp` left as set at boot takes the `StoreFault` path. The code instead appends the four bytes at address 0x10000 and goes on, and a later LW from `sp` then reads 0.
- Semantics.Run: bounded by `fuel` instead of `while True`; `OutOfFuel` reports a spent budget, and `Running.RunMonotone` shows that a larger budget does not change a result that was reached.
- Semantics.LoadInt: only reads of at most eight bytes, the most any instruction uses (LW reads four).
- An IndexError from `fetch` is not raised; it becomes the `FetchFault` status.
- Register 0 is not hard-wired to zero, register indices outside 0..31 are ignored rather than rejected, and loads past the end of memory come back short rather than failing: that is what the code does, and the model does the same.
- The equality of "advanced `pc` + offset - 4" with "own address + offset" is not stated. The jump lemmas give the target in the code's form, advanced `pc` + offset - 4.
