/**
 * The behaviour of `Cpu` in src/cpu.py as functions on a machine state: what
 * `fetch`, `loadint` and `execute` compute, one step of `run` and a run of at
 * most `fuel` steps. The methods of `Emulator.Cpu` are proved against these.
 *
 * Arithmetic on registers and `pc` is on `bv64`, so it wraps modulo 2^64 as
 * NumPy's `uint64` does.
 */
module Semantics {
  import opened Wrappers
  import opened Bytes
  import opened Memory
  import opened Decode
  import opened Registers

  /** Registers, program counter and the bytes of memory. */
  datatype Machine = Machine(regs: seq<bv64>, pc: bv64, mem: seq<bv8>)

  ghost predicate WellFormed(m: Machine)
  {
    |m.regs| == NUM_REGS
  }

  /** The state `execute` leaves, and whether it recognised the opcode. */
  datatype Executed = Executed(ok: bool, next: Machine)

  /** Why a run stopped. */
  datatype Status =
    | Halted      // `execute` returned False: `run` leaves its loop
    | FetchFault  // fewer than four bytes at `pc`: `fetch` raises IndexError
    | StoreFault  // a SW past the end of memory, which the model does not carry out
    | OutOfFuel   // the step budget ran out first

  datatype Outcome = Outcome(status: Status, final: Machine)

  const LOAD: bv32 := 0x03
  const OP_IMM: bv32 := 0x13
  const STORE: bv32 := 0x23
  const OP: bv32 := 0x33
  const BRANCH: bv32 := 0x63
  const JALR: bv32 := 0x67
  const JAL: bv32 := 0x6f

  /** The opcodes `execute` recognises. */
  predicate Supported(op: bv32)
  {
    op == LOAD || op == OP_IMM || op == STORE || op == OP || op == BRANCH || op == JALR || op == JAL
  }

  /** ~1 as an unsigned 64-bit mask: clears bit 0 of a jump target. */
  const CLEAR_BIT0: bv64 := 0xFFFF_FFFF_FFFF_FFFE

  /** A fresh `Cpu` after its memory is loaded with `image`: registers as constructed, `pc` 0. */
  function Boot(image: seq<bv8>): (m: Machine)
    ensures WellFormed(m) && m.pc == 0 && |m.mem| == DEFAULT_SIZE
    ensures m.regs[SP] == 0x7FF_FFFF && forall i :: 0 <= i < NUM_REGS && i != SP ==> m.regs[i] == 0
    ensures forall k :: 0 <= k < DEFAULT_SIZE ==> m.mem[k] == if k < |image| then image[k] else 0
  {
    Machine(InitialRegs(), 0, Preloaded(Zeros(DEFAULT_SIZE), image))
  }

  /** `fetch`: the little-endian word at `pc`, or nothing when fewer than four bytes are left. */
  function Fetch(m: Machine): (r: Option<bv32>)
    ensures r.Some? <==> m.pc as int + 4 <= |m.mem|
  {
    var a := m.pc as nat;
    var b := SliceAt(m.mem, a, 4);
    assert |b| == 4 <==> a + 4 <= |m.mem|;
    if |b| < 4 then None else Some(Word(b))
  }

  /** Where four bytes are left, `fetch` assembles exactly the four bytes at `pc`. */
  lemma FetchWord(m: Machine)
    requires m.pc as int + 4 <= |m.mem|
    ensures Fetch(m) == Some(Word(m.mem[m.pc as nat..m.pc as nat + 4]))
  {
    assert SliceAt(m.mem, m.pc as nat, 4) == m.mem[m.pc as nat..m.pc as nat + 4];
  }

  /** `loadint`: the bytes at `addr` (short at the end of memory) read as a signed little-endian number. */
  function LoadInt(mem: seq<bv8>, addr: nat, size: nat): bv64
    requires size <= 8
  {
    SignedLe(SliceAt(mem, addr, size))
  }

  /** The address a load reads, `rs1 + imm`. */
  function LoadAddress(m: Machine, inst: bv32): bv64
    requires WellFormed(m)
  {
    Add(m.regs[Rs1(inst)], ImmLoad(inst))
  }

  /** The address a store writes, `rs1 + imm`. */
  function StoreAddress(m: Machine, inst: bv32): bv64
    requires WellFormed(m)
  {
    Add(m.regs[Rs1(inst)], ImmS(inst))
  }

  /** Whether `inst` is a SW: the only instruction that writes memory. */
  predicate IsStoreWord(inst: bv32)
  {
    Opcode(inst) == STORE && Funct3(inst) == 2
  }

  /** The four bytes a store would write lie inside memory. */
  predicate WordFits(m: Machine, inst: bv32)
    requires WellFormed(m)
  {
    StoreAddress(m, inst) as int + 4 <= |m.mem|
  }

  /** The model carries out a SW only when its four bytes lie inside memory. */
  predicate StoreInBounds(m: Machine, inst: bv32)
    requires WellFormed(m)
  {
    IsStoreWord(inst) ==> WordFits(m, inst)
  }

  /* The cases of `execute`, one function per opcode. */

  /** Opcode 0x13 (ADDI, whatever funct3 says): rd := rs1 + I-immediate. */
  function ExecOpImm(m: Machine, inst: bv32): Executed
    requires WellFormed(m)
  {
    Executed(true, m.(regs := WriteReg(m.regs, Rd(inst), Add(m.regs[Rs1(inst)], ImmI(inst)))))
  }

  /** Opcode 0x33 (ADD, whatever funct3 and funct7 say): rd := rs1 + rs2. */
  function ExecOp(m: Machine, inst: bv32): Executed
    requires WellFormed(m)
  {
    Executed(true, m.(regs := WriteReg(m.regs, Rd(inst), Add(m.regs[Rs1(inst)], m.regs[Rs2(inst)]))))
  }

  /** Opcode 0x03: LW loads a signed word into rd; any other width writes 0 to rd. */
  function ExecLoad(m: Machine, inst: bv32): Executed
    requires WellFormed(m)
  {
    var value := if Funct3(inst) == 2 then LoadInt(m.mem, LoadAddress(m, inst) as nat, 4) else 0;
    Executed(true, m.(regs := WriteReg(m.regs, Rd(inst), value)))
  }

  /** Opcode 0x23: SW stores the low four bytes of rs2; any other width does nothing. */
  function ExecStore(m: Machine, inst: bv32): Executed
    requires WellFormed(m) && (Funct3(inst) == 2 ==> WordFits(m, inst))
  {
    if Funct3(inst) == 2 then
      Executed(true, m.(mem := Overwrite(m.mem, StoreAddress(m, inst) as nat, 4, LeBytes(m.regs[Rs2(inst)], 8))))
    else
      Executed(true, m)
  }

  /** Opcode 0x63: BEQ moves `pc` back to the branch and on by the B-immediate when rs1 == rs2; any other branch does nothing. */
  function ExecBranch(m: Machine, inst: bv32): Executed
    requires WellFormed(m)
  {
    if Funct3(inst) == 0 && m.regs[Rs1(inst)] == m.regs[Rs2(inst)] then
      Executed(true, m.(pc := Sub(Add(m.pc, ImmB(inst)), 4)))
    else
      Executed(true, m)
  }

  /** Opcode 0x67 (JALR, whatever funct3 says): jump to (rs1 + I-immediate) & ~1, link rd to `pc`. */
  function ExecJalr(m: Machine, inst: bv32): Executed
    requires WellFormed(m)
  {
    var target := Add(m.regs[Rs1(inst)], ImmI(inst)) & CLEAR_BIT0;
    Executed(true, m.(pc := target, regs := WriteReg(m.regs, Rd(inst), m.pc)))
  }

  /** Opcode 0x6f (JAL): link rd to `pc`, move `pc` back to the jump and on by the J-immediate. */
  function ExecJal(m: Machine, inst: bv32): Executed
    requires WellFormed(m)
  {
    Executed(true, m.(regs := WriteReg(m.regs, Rd(inst), m.pc), pc := Sub(Add(m.pc, ImmJ(inst)), 4)))
  }

  /**
   * `execute(inst)` on a machine whose `pc` already points past `inst`.
   * Field values are used as the code uses them: funct7 is never looked at,
   * funct3 only by loads, stores and branches.
   */
  function Exec(m: Machine, inst: bv32): (r: Executed)
    requires WellFormed(m) && StoreInBounds(m, inst)
    ensures WellFormed(r.next) && |r.next.mem| == |m.mem|
    ensures r.ok <==> Supported(Opcode(inst))
    ensures !r.ok ==> r.next == m
  {
    var op := Opcode(inst);
    if op == OP_IMM then ExecOpImm(m, inst)
    else if op == OP then ExecOp(m, inst)
    else if op == LOAD then ExecLoad(m, inst)
    else if op == STORE then ExecStore(m, inst)
    else if op == BRANCH then ExecBranch(m, inst)
    else if op == JALR then ExecJalr(m, inst)
    else if op == JAL then ExecJal(m, inst)
    else Executed(false, m)
  }

  /** What one iteration of `run` produces: the next state, or the reason it stops. */
  datatype Stepped = Next(m: Machine) | Stop(status: Status, m: Machine)

  /**
   * One iteration of `run`: fetch at `pc`, advance `pc` by 4, execute. When
   * `execute` does not recognise the opcode the loop ends with the `dump` of the
   * registers, which zeroes register 0.
   */
  function Step(m: Machine): (r: Stepped)
    requires WellFormed(m)
    ensures WellFormed(r.m) && |r.m.mem| == |m.mem|
    ensures r.Stop? ==> r.status != OutOfFuel
  {
    match Fetch(m)
    case None => Stop(FetchFault, m)
    case Some(inst) =>
      var advanced := m.(pc := Add(m.pc, 4));
      if !StoreInBounds(advanced, inst) then Stop(StoreFault, advanced)
      else
        var e := Exec(advanced, inst);
        if e.ok then Next(e.next) else Stop(Halted, e.next.(regs := Dumped(e.next.regs)))
  }

  /**
   * A step function whose result again satisfies its precondition, keeps the
   * memory size and never claims the budget ran out.
   */
  ghost predicate Closed(step: Machine --> Stepped)
  {
    forall x {:trigger step(x)} :: step.requires(x) ==>
      && step.requires(step(x).m) && |step(x).m.mem| == |x.mem|
      && (step(x).Stop? ==> step(x).status != OutOfFuel)
  }

  /** The loop of `run` around any step function, limited to `fuel` iterations. */
  function Iterate(step: Machine --> Stepped, m: Machine, fuel: nat): (r: Outcome)
    requires Closed(step) && step.requires(m)
    ensures step.requires(r.final) && |r.final.mem| == |m.mem|
    ensures fuel == 0 ==> r == Outcome(OutOfFuel, m)
    decreases fuel
  {
    if fuel == 0 then Outcome(OutOfFuel, m)
    else
      match step(m)
      case Next(m') => Iterate(step, m', fuel - 1)
      case Stop(status, m') => Outcome(status, m')
  }

  /** `Step` can be iterated: it keeps the register file well formed and the memory size. */
  lemma StepClosed()
    ensures Closed(Step)
  {}

  /** `run` limited to `fuel` iterations. */
  function Run(m: Machine, fuel: nat): (r: Outcome)
    requires WellFormed(m)
    ensures WellFormed(r.final) && |r.final.mem| == |m.mem|
    ensures fuel == 0 ==> r == Outcome(OutOfFuel, m)
  {
    StepClosed();
    Iterate(Step, m, fuel)
  }
}
