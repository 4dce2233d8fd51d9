/**
 * What `execute` does for each opcode of src/cpu.py, stated as effects on the
 * register file, `pc` and memory, together with what it leaves alone.
 */
module Execution {
  import opened Bytes
  import opened Memory
  import opened Decode
  import opened Registers
  import opened Semantics

  /* `execute` runs the case of its opcode. */

  lemma DispatchOpImm(m: Machine, inst: bv32)
    requires WellFormed(m) && StoreInBounds(m, inst) && Opcode(inst) == OP_IMM
    ensures Exec(m, inst) == ExecOpImm(m, inst)
  {}

  lemma DispatchOp(m: Machine, inst: bv32)
    requires WellFormed(m) && StoreInBounds(m, inst) && Opcode(inst) == OP
    ensures Exec(m, inst) == ExecOp(m, inst)
  {}

  lemma DispatchLoad(m: Machine, inst: bv32)
    requires WellFormed(m) && StoreInBounds(m, inst) && Opcode(inst) == LOAD
    ensures Exec(m, inst) == ExecLoad(m, inst)
  {}

  lemma DispatchStore(m: Machine, inst: bv32)
    requires WellFormed(m) && StoreInBounds(m, inst) && Opcode(inst) == STORE
    ensures Exec(m, inst) == ExecStore(m, inst)
  {}

  lemma DispatchBranch(m: Machine, inst: bv32)
    requires WellFormed(m) && StoreInBounds(m, inst) && Opcode(inst) == BRANCH
    ensures Exec(m, inst) == ExecBranch(m, inst)
  {}

  lemma DispatchJalr(m: Machine, inst: bv32)
    requires WellFormed(m) && StoreInBounds(m, inst) && Opcode(inst) == JALR
    ensures Exec(m, inst) == ExecJalr(m, inst)
  {}

  lemma DispatchJal(m: Machine, inst: bv32)
    requires WellFormed(m) && StoreInBounds(m, inst) && Opcode(inst) == JAL
    ensures Exec(m, inst) == ExecJal(m, inst)
  {}

  /** Opcode 0x13 sets rd to rs1 + I-immediate (mod 2^64) whatever funct3 says; nothing else changes. */
  lemma OpImmEffect(m: Machine, inst: bv32)
    requires WellFormed(m) && Opcode(inst) == OP_IMM
    ensures var r := ExecOpImm(m, inst);
      && r.ok
      && r.next.regs == m.regs[Rd(inst) := Add(m.regs[Rs1(inst)], SignExtend((inst >> 20) as bv64, 0x800))]
      && r.next.pc == m.pc && r.next.mem == m.mem
  {
    ImmIManual(inst);
  }

  /** Opcode 0x33 sets rd to rs1 + rs2 (mod 2^64) whatever funct3 and funct7 say; nothing else changes. */
  lemma OpEffect(m: Machine, inst: bv32)
    requires WellFormed(m) && Opcode(inst) == OP
    ensures var r := ExecOp(m, inst);
      && r.ok
      && r.next.regs == m.regs[Rd(inst) := Add(m.regs[Rs1(inst)], m.regs[Rs2(inst)])]
      && r.next.pc == m.pc && r.next.mem == m.mem
  {
  }

  /** LW sets rd to `loadint` of the four bytes at rs1 + I-immediate; nothing else changes. */
  lemma LoadWordEffect(m: Machine, inst: bv32)
    requires WellFormed(m) && Opcode(inst) == LOAD && Funct3(inst) == 2
    ensures var r := ExecLoad(m, inst);
      && r.ok
      && r.next.regs == m.regs[Rd(inst) := LoadInt(m.mem, LoadAddress(m, inst) as nat, 4)]
      && r.next.pc == m.pc && r.next.mem == m.mem
  {
  }

  /** The load address uses the I-immediate. */
  lemma LoadAddressIsImmI(m: Machine, inst: bv32)
    requires WellFormed(m)
    ensures LoadAddress(m, inst) == Add(m.regs[Rs1(inst)], ImmI(inst))
  {
    ImmLoadIsImmI(inst);
  }

  /**
   * Four bytes inside memory are read as the little-endian word sign-extended
   * from bit 31, and past the end the result is 0.
   */
  lemma LoadIntWord(mem: seq<bv8>, a: nat)
    ensures a + 4 <= |mem| ==> LoadInt(mem, a, 4) == SignExtend(LeValue(mem[a..a + 4]), 0x8000_0000)
    ensures a >= |mem| ==> LoadInt(mem, a, 4) == 0
  {
    if a + 4 <= |mem| {
      assert SliceAt(mem, a, 4) == mem[a..a + 4];
      SignedLeWord(mem[a..a + 4]);
    }
  }

  /** One to three bytes before the end of memory, a word load reads the bytes that are left, sign-extended from the last one. */
  lemma LoadIntShort(mem: seq<bv8>, a: nat)
    requires a < |mem| < a + 4
    ensures mem[|mem| - 1] & 0x80 == 0 ==> LoadInt(mem, a, 4) == LeValue(mem[a..])
    ensures mem[|mem| - 1] & 0x80 != 0 ==> LoadInt(mem, a, 4) == LeValue(mem[a..]) | !ByteMask(|mem| - a)
  {
    var b := mem[a..];
    assert SliceAt(mem, a, 4) == b;
    if b[|b| - 1] & 0x80 == 0 {
      SignedLeNonNegative(b);
    } else {
      SignedLeNegative(b);
    }
  }

  /** A load with any width other than a word sets rd to 0 and still succeeds. */
  lemma LoadOtherEffect(m: Machine, inst: bv32)
    requires WellFormed(m) && Opcode(inst) == LOAD && Funct3(inst) != 2
    ensures var r := ExecLoad(m, inst);
      r.ok && r.next == m.(regs := m.regs[Rd(inst) := 0])
  {
  }

  /** SW overwrites the four bytes at rs1 + S-immediate with the serialised rs2; no register and not `pc` changes. */
  lemma StoreWordEffect(m: Machine, inst: bv32)
    requires WellFormed(m) && IsStoreWord(inst) && StoreInBounds(m, inst)
    ensures var r := ExecStore(m, inst);
      && r.ok && r.next.regs == m.regs && r.next.pc == m.pc
      && r.next.mem == Overwrite(m.mem, StoreAddress(m, inst) as nat, 4, LeBytes(m.regs[Rs2(inst)], 8))
  {
  }

  /**
   * The bytes SW leaves: the low 32 bits of the value, least significant byte
   * first, at `a`, and every other byte as it was.
   */
  lemma StoredWord(mem: seq<bv8>, a: nat, v: bv64)
    requires a + 4 <= |mem|
    ensures var mem' := Overwrite(mem, a, 4, LeBytes(v, 8));
      && LeValue(mem'[a..a + 4]) == v & 0xFFFF_FFFF
      && forall k :: 0 <= k < |mem| && !(a <= k < a + 4) ==> mem'[k] == mem[k]
  {
    StoreIntBytes(mem, a, 4, v);
    LowWord(v);
  }

  /** A store of any width other than a word changes nothing and still succeeds. */
  lemma StoreOtherEffect(m: Machine, inst: bv32)
    requires WellFormed(m) && Opcode(inst) == STORE && Funct3(inst) != 2
    ensures ExecStore(m, inst) == Executed(true, m)
  {
  }

  /**
   * A branch moves `pc` by B-immediate - 4 (back to the branch's own address plus
   * the offset) only for BEQ with equal operands; every other branch changes nothing.
   */
  lemma BranchEffect(m: Machine, inst: bv32)
    requires WellFormed(m) && Opcode(inst) == BRANCH
    ensures var r := ExecBranch(m, inst);
      && r.ok && r.next.regs == m.regs && r.next.mem == m.mem
      && r.next.pc == if Funct3(inst) == 0 && m.regs[Rs1(inst)] == m.regs[Rs2(inst)] then Sub(Add(m.pc, ImmB(inst)), 4) else m.pc
  {
  }

  /** A taken branch keeps bit 0 of `pc`, since the B-immediate is even. */
  lemma BranchKeepsParity(m: Machine, inst: bv32)
    requires WellFormed(m) && Opcode(inst) == BRANCH && m.pc & 1 == 0
    ensures Exec(m, inst).next.pc & 1 == 0
  {
    ImmBManual(inst);
    var imm := ImmB(inst);
    EvenSum(m.pc, imm);
  }

  /** Adding two even values and subtracting 4 gives an even value. */
  lemma EvenSum(a: bv64, b: bv64)
    requires a & 1 == 0 && b & 1 == 0
    ensures Sub(Add(a, b), 4) & 1 == 0
  {}

  /**
   * JALR jumps to (rs1 + I-immediate) with bit 0 cleared, the target being computed
   * from rs1 before rd is written (so rd == rs1 is fine), and links rd to `pc`,
   * whatever funct3 says.
   */
  lemma JalrEffect(m: Machine, inst: bv32)
    requires WellFormed(m) && Opcode(inst) == JALR
    ensures var r := ExecJalr(m, inst);
      && r.ok
      && r.next.pc == Add(m.regs[Rs1(inst)], SignExtend((inst >> 20) as bv64, 0x800)) & CLEAR_BIT0
      && r.next.pc & 1 == 0
      && r.next.regs == m.regs[Rd(inst) := m.pc]
      && r.next.mem == m.mem
  {
    ImmIManual(inst);
  }

  /** JAL links rd to `pc` and moves `pc` by J-immediate - 4. */
  lemma JalEffect(m: Machine, inst: bv32)
    requires WellFormed(m) && Opcode(inst) == JAL
    ensures var r := ExecJal(m, inst);
      && r.ok
      && r.next.regs == m.regs[Rd(inst) := m.pc]
      && r.next.pc == Sub(Add(m.pc, ImmJ(inst)), 4)
      && r.next.mem == m.mem
  {
  }

  /** Register 0 is not hard-wired: `addi x0, x0, 1` leaves 1 in it. */
  lemma ZeroRegisterWritable(m: Machine)
    requires WellFormed(m) && m.regs[0] == 0
    ensures Exec(m, 0x0010_0013).next.regs[0] == 1
  {
    assert Opcode(0x0010_0013) == OP_IMM && Rd(0x0010_0013) == 0 && Rs1(0x0010_0013) == 0;
    assert ImmI(0x0010_0013) == 1;
    DispatchOpImm(m, 0x0010_0013);
  }

  /** `loadint` of a word that SW has just written gives the low 32 bits of the stored value, sign-extended. */
  lemma LoadStoredWord(mem: seq<bv8>, a: nat, v: bv64)
    requires a + 4 <= |mem|
    ensures LoadInt(Overwrite(mem, a, 4, LeBytes(v, 8)), a, 4) == SignExtend(v & 0xFFFF_FFFF, 0x8000_0000)
  {
    var mem' := Overwrite(mem, a, 4, LeBytes(v, 8));
    StoredWord(mem, a, v);
    LoadIntWord(mem', a);
  }

  /** LW within memory sets rd to the little-endian word at rs1 + I-immediate, sign-extended from bit 31. */
  lemma LoadWordValue(m: Machine, inst: bv32)
    requires WellFormed(m) && Opcode(inst) == LOAD && Funct3(inst) == 2
    requires Add(m.regs[Rs1(inst)], ImmI(inst)) as int + 4 <= |m.mem|
    ensures var a := Add(m.regs[Rs1(inst)], ImmI(inst)) as nat;
      ExecLoad(m, inst).next.regs == m.regs[Rd(inst) := SignExtend(LeValue(m.mem[a..a + 4]), 0x8000_0000)]
  {
    LoadAddressIsImmI(m, inst);
    LoadWordEffect(m, inst);
    LoadIntWord(m.mem, LoadAddress(m, inst) as nat);
  }

  /** SW leaves the low 32 bits of rs2 at rs1 + S-immediate and every other byte as it was. */
  lemma StoreWordBytes(m: Machine, inst: bv32)
    requires WellFormed(m) && IsStoreWord(inst) && StoreInBounds(m, inst)
    ensures var a := StoreAddress(m, inst) as nat; var mem' := ExecStore(m, inst).next.mem;
      && LeValue(mem'[a..a + 4]) == m.regs[Rs2(inst)] & 0xFFFF_FFFF
      && forall k :: 0 <= k < |m.mem| && !(a <= k < a + 4) ==> mem'[k] == m.mem[k]
  {
    StoreWordEffect(m, inst);
    StoredWord(m.mem, StoreAddress(m, inst) as nat, m.regs[Rs2(inst)]);
  }
}
