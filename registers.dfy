/**
 * The register file of src/cpu.py as a value: 32 unsigned 64-bit registers,
 * read and written by index. As in the code, and unlike section 2.1 of the
 * ISA manual, register 0 is an ordinary register: a write to it is kept.
 */
module Registers {
  import opened Wrappers
  import Memory

  const NUM_REGS: nat := 32

  /** Index of the stack pointer `sp`. */
  const SP: nat := 2

  /** The initial stack pointer: the last byte of the 128 MiB address space (see `StackPointerIsTop`). */
  const SP_INIT: bv64 := 0x7FF_FFFF

  /** The register file after construction: every register 0 except `sp`. */
  function InitialRegs(): (r: seq<bv64>)
    ensures |r| == NUM_REGS
    ensures forall i :: 0 <= i < NUM_REGS && i != SP ==> r[i] == 0
    ensures r[SP] == SP_INIT
  {
    seq(NUM_REGS, i => if i == SP then SP_INIT else 0)
  }

  /** `read(index)`: the register's value, or nothing for an index outside 0..31. */
  function ReadReg(regs: seq<bv64>, index: int): Option<bv64>
    requires |regs| == NUM_REGS
  {
    if 0 <= index < NUM_REGS then Some(regs[index]) else None
  }

  /** `write(index, value)`: the register file with one register replaced; an index outside 0..31 is ignored. */
  function WriteReg(regs: seq<bv64>, index: int, value: bv64): (r: seq<bv64>)
    requires |regs| == NUM_REGS
    ensures |r| == NUM_REGS
  {
    if 0 <= index < NUM_REGS then regs[index := value] else regs
  }

  /** The register file after `dump`, which zeroes register 0 before printing. */
  function Dumped(regs: seq<bv64>): (r: seq<bv64>)
    requires |regs| == NUM_REGS
    ensures |r| == NUM_REGS
  {
    regs[0 := 0]
  }

  /** After `dump` register 0 reads 0 and every other register is as it was. */
  lemma DumpedRegisters(regs: seq<bv64>, index: int)
    requires |regs| == NUM_REGS
    ensures ReadReg(Dumped(regs), index) == if index == 0 then Some(0) else ReadReg(regs, index)
  {}

  /** The initial stack pointer is `DRAM_SIZE - 1`. */
  lemma StackPointerIsTop()
    ensures SP_INIT as int == Memory.DRAM_SIZE - 1
  {}

  /** After construction `sp` reads 0x7FF_FFFF and every other register 0. */
  lemma InitialStackPointer()
    ensures ReadReg(InitialRegs(), SP) == Some(0x7FF_FFFF)
    ensures forall i :: 0 <= i < NUM_REGS && i != SP ==> ReadReg(InitialRegs(), i) == Some(0)
  {}

  /** A register reads back what was last written to it, register 0 included. */
  lemma ReadAfterWrite(regs: seq<bv64>, index: int, value: bv64)
    requires |regs| == NUM_REGS && 0 <= index < NUM_REGS
    ensures ReadReg(WriteReg(regs, index, value), index) == Some(value)
  {}

  /** A write leaves every other register as it was. */
  lemma ReadOtherAfterWrite(regs: seq<bv64>, index: int, value: bv64, other: int)
    requires |regs| == NUM_REGS && other != index
    ensures ReadReg(WriteReg(regs, index, value), other) == ReadReg(regs, other)
  {}

  /** A write outside the register file changes nothing; a read outside it gives nothing. */
  lemma OutOfRange(regs: seq<bv64>, index: int, value: bv64)
    requires |regs| == NUM_REGS && !(0 <= index < NUM_REGS)
    ensures WriteReg(regs, index, value) == regs
    ensures ReadReg(regs, index) == None
  {}

  /** Every register holds a value: a read inside the file never comes back empty. */
  lemma ReadInRange(regs: seq<bv64>, index: int)
    requires |regs| == NUM_REGS
    ensures ReadReg(regs, index).Some? <==> 0 <= index < NUM_REGS
  {}
}
