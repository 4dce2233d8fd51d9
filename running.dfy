/**
 * Properties of `run` in src/cpu.py: what a single iteration does around
 * `execute` (fetch at `pc`, advance `pc` by 4), when the loop stops, and how
 * runs with different step budgets relate.
 */
module Running {
  import opened Wrappers
  import opened Bytes
  import opened Memory
  import opened Decode
  import opened Registers
  import opened Semantics
  import Execution

  /** Fewer than four bytes at `pc`: `fetch` fails and nothing changes. */
  lemma StepFetchFault(m: Machine)
    requires WellFormed(m) && m.pc as int + 4 > |m.mem|
    ensures Step(m) == Stop(FetchFault, m)
  {}

  /** The fetched SW writes past the end of memory: the loop stops with only `pc` advanced. */
  lemma StepStoreFault(m: Machine, inst: bv32)
    requires WellFormed(m) && Fetch(m) == Some(inst) && !StoreInBounds(m.(pc := Add(m.pc, 4)), inst)
    ensures Step(m) == Stop(StoreFault, m.(pc := Add(m.pc, 4)))
  {}

  /**
   * An unrecognised opcode stops the loop with `pc` already advanced, register 0
   * zeroed by `dump` and nothing else changed.
   */
  lemma StepHalts(m: Machine, inst: bv32)
    requires WellFormed(m) && Fetch(m) == Some(inst) && !Supported(Opcode(inst))
    ensures Step(m) == Stop(Halted, m.(pc := Add(m.pc, 4), regs := Dumped(m.regs)))
  {}

  /** A recognised instruction is executed on the machine whose `pc` points past it. */
  lemma StepExecutes(m: Machine, inst: bv32)
    requires WellFormed(m) && Fetch(m) == Some(inst) && Supported(Opcode(inst))
    requires StoreInBounds(m.(pc := Add(m.pc, 4)), inst)
    ensures Step(m) == Next(Exec(m.(pc := Add(m.pc, 4)), inst).next)
  {}

  /** A loop that stopped within its budget gives the same outcome with any larger budget. */
  lemma {:induction false} IterateMonotone(step: Machine --> Stepped, m: Machine, fuel: nat, extra: nat)
    requires Closed(step) && step.requires(m) && Iterate(step, m, fuel).status != OutOfFuel
    ensures Iterate(step, m, fuel + extra) == Iterate(step, m, fuel)
    decreases fuel
  {
    match step(m)
    case Next(m') => IterateMonotone(step, m', fuel - 1, extra);
    case Stop(_, _) =>
  }

  /** Looping for `a + b` steps is looping for `a` steps and then, if still going, for `b` more. */
  lemma {:induction false} IterateSplit(step: Machine --> Stepped, m: Machine, a: nat, b: nat)
    requires Closed(step) && step.requires(m)
    ensures var first := Iterate(step, m, a);
      Iterate(step, m, a + b) == if first.status == OutOfFuel then Iterate(step, first.final, b) else first
    decreases a
  {
    if a > 0 {
      match step(m)
      case Next(m') => IterateSplit(step, m', a - 1, b);
      case Stop(_, _) =>
    }
  }

  /** A run that stopped within its budget gives the same outcome with any larger budget. */
  lemma RunMonotone(m: Machine, fuel: nat, extra: nat)
    requires WellFormed(m) && Run(m, fuel).status != OutOfFuel
    ensures Run(m, fuel + extra) == Run(m, fuel)
  {
    StepClosed();
    IterateMonotone(Step, m, fuel, extra);
  }

  /** Running for `a + b` steps is running for `a` steps and then, if still going, for `b` more. */
  lemma RunSplit(m: Machine, a: nat, b: nat)
    requires WellFormed(m)
    ensures Run(m, a + b) == if Run(m, a).status == OutOfFuel then Run(Run(m, a).final, b) else Run(m, a)
  {
    StepClosed();
    IterateSplit(Step, m, a, b);
  }

  /** A run with budget left either stops at its first step or continues from the state that step produced. */
  lemma RunUnfold(m: Machine, fuel: nat)
    requires WellFormed(m) && fuel > 0
    ensures Run(m, fuel) == match Step(m)
      case Next(m') => Run(m', fuel - 1)
      case Stop(status, m') => Outcome(status, m')
  {
    StepClosed();
  }

  /** With no program loaded, memory holds zeros; opcode 0 is not recognised, so `run` stops after its first fetch. */
  lemma EmptyImageHalts(fuel: nat)
    requires fuel > 0
    ensures Run(Boot([]), fuel) == Outcome(Halted, Boot([]).(pc := 4))
  {
    var m := Boot([]);
    assert m.mem[0] == 0 && m.mem[1] == 0 && m.mem[2] == 0 && m.mem[3] == 0;
    assert SliceAt(m.mem, 0, 4) == [0, 0, 0, 0];
    assert Fetch(m) == Some(0);
    StepHalts(m, 0);
    assert Dumped(m.regs) == m.regs;
    RunUnfold(m, fuel);
  }

  /* One iteration of `run` seen from a run with budget left: the three ways it can go. */

  /** `fetch` fails: the run stops there with nothing changed. */
  lemma RunFetchFault(m: Machine, fuel: nat)
    requires WellFormed(m) && fuel > 0 && Fetch(m).None?
    ensures Run(m, fuel) == Outcome(FetchFault, m)
  {
    RunUnfold(m, fuel);
  }

  /** The fetched SW writes past the end of memory: the run stops after advancing `pc`. */
  lemma RunStoreFault(m: Machine, fuel: nat, inst: bv32)
    requires WellFormed(m) && fuel > 0 && Fetch(m) == Some(inst)
    requires !StoreInBounds(m.(pc := Add(m.pc, 4)), inst)
    ensures Run(m, fuel) == Outcome(StoreFault, m.(pc := Add(m.pc, 4)))
  {
    RunUnfold(m, fuel);
  }

  /** Otherwise the fetched instruction is executed; the run goes on if it was recognised and ends with `dump` if not. */
  lemma RunExecutes(m: Machine, fuel: nat, inst: bv32)
    requires WellFormed(m) && fuel > 0 && Fetch(m) == Some(inst)
    requires StoreInBounds(m.(pc := Add(m.pc, 4)), inst)
    ensures var e := Exec(m.(pc := Add(m.pc, 4)), inst);
      Run(m, fuel) == if e.ok then Run(e.next, fuel - 1) else Outcome(Halted, e.next.(regs := Dumped(e.next.regs)))
  {
    RunUnfold(m, fuel);
  }

  /* Jumps and branches seen from the address of the instruction itself. */

  /** JAL at `pc` links rd to `pc` + 4, the instruction after it, and moves from there by J-immediate - 4. */
  lemma JalStep(m: Machine, inst: bv32)
    requires WellFormed(m) && Fetch(m) == Some(inst) && Opcode(inst) == JAL
    ensures var after := Add(m.pc, 4);
      Step(m) == Next(m.(regs := WriteReg(m.regs, Rd(inst), after), pc := Sub(Add(after, ImmJ(inst)), 4)))
  {
    var advanced := m.(pc := Add(m.pc, 4));
    StepExecutes(m, inst);
    Execution.DispatchJal(advanced, inst);
  }

  /** BEQ at `pc` with rs1 == rs2 moves from `pc` + 4 by B-immediate - 4; every other branch goes on to `pc` + 4. */
  lemma BranchStep(m: Machine, inst: bv32)
    requires WellFormed(m) && Fetch(m) == Some(inst) && Opcode(inst) == BRANCH
    ensures var after := Add(m.pc, 4);
      Step(m) == Next(m.(pc := if Funct3(inst) == 0 && m.regs[Rs1(inst)] == m.regs[Rs2(inst)]
                               then Sub(Add(after, ImmB(inst)), 4) else after))
  {
    var advanced := m.(pc := Add(m.pc, 4));
    StepExecutes(m, inst);
    Execution.DispatchBranch(advanced, inst);
  }

  /** JALR at `pc` links rd to `pc` + 4, the instruction after it, and jumps to (rs1 + I-immediate) & ~1. */
  lemma JalrStep(m: Machine, inst: bv32)
    requires WellFormed(m) && Fetch(m) == Some(inst) && Opcode(inst) == JALR
    ensures Step(m) == Next(m.(regs := WriteReg(m.regs, Rd(inst), Add(m.pc, 4)),
                              pc := Add(m.regs[Rs1(inst)], ImmI(inst)) & CLEAR_BIT0))
  {
    var advanced := m.(pc := Add(m.pc, 4));
    StepExecutes(m, inst);
    Execution.DispatchJalr(advanced, inst);
  }

  /* Programs of one instruction, from a freshly constructed and loaded machine. */

  /** `addi x1, x0, 1` (0x00100093) at address 0: one step leaves x1 == 1 and `pc` == 4. */
  lemma AddiFromBoot()
    ensures var m := Boot([0x93, 0x00, 0x10, 0x00]);
      Step(m) == Next(m.(regs := m.regs[1 := 1], pc := 4))
  {
    var m := Boot([0x93, 0x00, 0x10, 0x00]);
    assert SliceAt(m.mem, 0, 4) == [0x93, 0x00, 0x10, 0x00];
    assert Fetch(m) == Some(0x0010_0093);
    DecodeAddi();
    var advanced := m.(pc := Add(m.pc, 4));
    StepExecutes(m, 0x0010_0093);
    Execution.DispatchOpImm(advanced, 0x0010_0093);
  }

  /** `beq x0, x0, 0` (0x00000063) at address 0 branches to itself: the offset is taken from the branch's own address. */
  lemma BranchToSelfFromBoot()
    ensures var m := Boot([0x63, 0x00, 0x00, 0x00]);
      Step(m) == Next(m)
  {
    var m := Boot([0x63, 0x00, 0x00, 0x00]);
    assert SliceAt(m.mem, 0, 4) == [0x63, 0x00, 0x00, 0x00];
    assert Fetch(m) == Some(0x63);
    assert ImmB(0x63) == 0;
    BranchStep(m, 0x63);
  }
}
