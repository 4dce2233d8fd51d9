/**
 * Instruction decoding of src/cpu.py: the fixed bit fields of a 32-bit RISC-V
 * instruction, the four immediates exactly as the code assembles them from
 * masks, 32-bit arithmetic shifts and 64-bit reinterpretation, and the byte
 * assembly of `fetch`. Each immediate is proved equal to the sign-extended bit
 * concatenation given for it in section 2.3 of the RISC-V Unprivileged ISA
 * manual (version 20191213).
 */
module Decode {
  import opened Bytes

  /** inst[6:0]. */
  function Opcode(inst: bv32): (op: bv32)
    ensures op < 0x80
  {
    inst & 0x7f
  }

  /** inst[11:7], the destination register index. */
  function Rd(inst: bv32): (r: nat)
    ensures r < 32
  {
    RdBits(inst) as nat
  }

  /** inst[19:15], the first source register index. */
  function Rs1(inst: bv32): (r: nat)
    ensures r < 32
  {
    Rs1Bits(inst) as nat
  }

  /** inst[24:20], the second source register index. */
  function Rs2(inst: bv32): (r: nat)
    ensures r < 32
  {
    Rs2Bits(inst) as nat
  }

  /* The register fields as bit strings, before they are used as indices. */

  function RdBits(inst: bv32): bv32 { (inst >> 7) & 0x1f }

  function Rs1Bits(inst: bv32): bv32 { (inst >> 15) & 0x1f }

  function Rs2Bits(inst: bv32): bv32 { (inst >> 20) & 0x1f }

  /** inst[14:12]. */
  function Funct3(inst: bv32): (f: bv32)
    ensures f < 8
  {
    (inst >> 12) & 0x7
  }

  /** inst[31:25]. */
  function Funct7(inst: bv32): (f: bv32)
    ensures f < 0x80
  {
    (inst >> 25) & 0x7f
  }

  /*
   * In the immediates below `np.int32(x) >> k` is an arithmetic shift of the
   * 32-bit two's-complement reading of `x`: a logical shift followed by
   * copying the old bit 31 (now at bit 31-k) upwards. `np.uint64` of the
   * resulting signed 32-bit value then copies bit 31 into the upper word.
   */

  /** The I-immediate, `np.uint64(np.int32(inst & 0xfff00000) >> 20)`: sign-extended inst[31:20]. */
  function ImmI(inst: bv32): bv64
  {
    var s: bv32 := (((inst & 0xfff0_0000) >> 20) ^ 0x800) - 0x800;
    ((s as bv64) ^ 0x8000_0000) - 0x8000_0000
  }

  /** The load offset, `np.uint64(np.int32(inst) >> 20)`: the same I-immediate, as bits 19:0 are shifted out. */
  function ImmLoad(inst: bv32): bv64
  {
    var s: bv32 := ((inst >> 20) ^ 0x800) - 0x800;
    ((s as bv64) ^ 0x8000_0000) - 0x8000_0000
  }

  /** The S-immediate: sign-extended {inst[31:25], inst[11:7]}. */
  function ImmS(inst: bv32): bv64
  {
    var s: bv32 := (((inst & 0xfe00_0000) >> 20) ^ 0x800) - 0x800;
    (((s as bv64) ^ 0x8000_0000) - 0x8000_0000) | ((inst >> 7) & 0x1f) as bv64
  }

  /** The B-immediate: sign-extended {inst[31], inst[7], inst[30:25], inst[11:8], 0}, so always even. */
  function ImmB(inst: bv32): bv64
  {
    var s: bv32 := (((inst & 0x8000_0000) >> 19) ^ 0x1000) - 0x1000;
    (((s as bv64) ^ 0x8000_0000) - 0x8000_0000)
    | ((inst & 0x80) << 4) as bv64
    | ((inst >> 20) & 0x7e0) as bv64
    | ((inst >> 7) & 0x1e) as bv64
  }

  /** The J-immediate: sign-extended {inst[31], inst[19:12], inst[20], inst[30:21], 0}, so always even. */
  function ImmJ(inst: bv32): bv64
  {
    var s: bv32 := (((inst & 0x8000_0000) >> 11) ^ 0x10_0000) - 0x10_0000;
    (((s as bv64) ^ 0x8000_0000) - 0x8000_0000)
    | (inst & 0xf_f000) as bv64
    | ((inst >> 9) & 0x800) as bv64
    | ((inst >> 20) & 0x7fe) as bv64
  }

  /** `fetch`'s assembly of a 32-bit word from four bytes, least significant first. */
  function Word(b: seq<bv8>): (w: bv32)
    requires |b| >= 4
    ensures (w & 0xff) as bv8 == b[0] && ((w >> 8) & 0xff) as bv8 == b[1]
    ensures ((w >> 16) & 0xff) as bv8 == b[2] && (w >> 24) as bv8 == b[3]
  {
    (b[0] as bv32) | ((b[1] as bv32) << 8) | ((b[2] as bv32) << 16) | ((b[3] as bv32) << 24)
  }

  /** Section 2.3: the I-immediate is inst[31:20], sign-extended. */
  lemma ImmIManual(inst: bv32)
    ensures ImmI(inst) == SignExtend((inst >> 20) as bv64, 0x800)
  {}

  /** The load's unmasked shift gives the same offset as the I-immediate. */
  lemma ImmLoadIsImmI(inst: bv32)
    ensures ImmLoad(inst) == ImmI(inst)
  {}

  /** An all-ones I-immediate field is -1, i.e. every one of the 64 bits set. */
  lemma ImmIAllOnes(inst: bv32)
    requires inst >> 20 == 0xfff
    ensures ImmI(inst) == ALL_ONES
  {}

  /** Section 2.3: the S-immediate is {inst[31:25], inst[11:7]}, sign-extended. */
  lemma ImmSManual(inst: bv32)
    ensures ImmS(inst) == SignExtend((((inst >> 25) as bv64) << 5) | ((inst >> 7) & 0x1f) as bv64, 0x800)
  {}

  /** Section 2.3: the B-immediate is {inst[31], inst[7], inst[30:25], inst[11:8], 0}, sign-extended from bit 12. */
  lemma ImmBManual(inst: bv32)
    ensures ImmB(inst) == SignExtend((((inst >> 31) as bv64) << 12) | ((((inst >> 7) & 1) as bv64) << 11)
                                     | ((((inst >> 25) & 0x3f) as bv64) << 5) | ((((inst >> 8) & 0xf) as bv64) << 1), 0x1000)
    ensures ImmB(inst) & 1 == 0
  {}

  /** Section 2.3: the J-immediate is {inst[31], inst[19:12], inst[20], inst[30:21], 0}, sign-extended from bit 20. */
  lemma ImmJManual(inst: bv32)
    ensures ImmJ(inst) == SignExtend((((inst >> 31) as bv64) << 20) | ((((inst >> 12) & 0xff) as bv64) << 12)
                                     | ((((inst >> 20) & 1) as bv64) << 11) | ((((inst >> 21) & 0x3ff) as bv64) << 1), 0x10_0000)
    ensures ImmJ(inst) & 1 == 0
  {}

  /** The word whose fields are the given values: the inverse of the field extraction above. */
  function Encode(opcode: bv32, rd: bv32, funct3: bv32, rs1: bv32, rs2: bv32, funct7: bv32): bv32
  {
    opcode | (rd << 7) | (funct3 << 12) | (rs1 << 15) | (rs2 << 20) | (funct7 << 25)
  }

  /** Each field reads back the value it was encoded with. */
  lemma DecodeEncode(opcode: bv32, rd: bv32, funct3: bv32, rs1: bv32, rs2: bv32, funct7: bv32)
    requires opcode < 0x80 && rd < 32 && funct3 < 8 && rs1 < 32 && rs2 < 32 && funct7 < 0x80
    ensures var inst := Encode(opcode, rd, funct3, rs1, rs2, funct7);
      && Opcode(inst) == opcode && RdBits(inst) == rd && Funct3(inst) == funct3
      && Rs1Bits(inst) == rs1 && Rs2Bits(inst) == rs2 && Funct7(inst) == funct7
  {}

  /** The six fields cover the whole word: re-encoding them gives the instruction back. */
  lemma EncodeDecode(inst: bv32)
    ensures Encode(Opcode(inst), RdBits(inst), Funct3(inst), Rs1Bits(inst), Rs2Bits(inst), Funct7(inst)) == inst
  {}

  /** `addi x1, x0, 1` (0x00100093): opcode 0x13, rd 1, rs1 0 and immediate 1. */
  lemma DecodeAddi()
    ensures Opcode(0x0010_0093) == 0x13 && Rd(0x0010_0093) == 1 && Rs1(0x0010_0093) == 0
    ensures Funct3(0x0010_0093) == 0 && ImmI(0x0010_0093) == 1
  {}
}
