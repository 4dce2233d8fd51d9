/**
 * The objects of src/cpu.py: the register file `XRegisters` and the `Cpu`
 * that owns it, its `pc` and a `Dram`. Every method updates the fields in
 * place as the code does and is proved to leave the state the functions of
 * `Semantics` describe.
 */
module Emulator {
  import opened Wrappers
  import opened Bytes
  import opened Memory
  import opened Decode
  import opened Registers
  import opened Semantics
  import Running
  import Execution

  /** The 32 general-purpose registers, as a list the methods reassign. */
  class XRegisters {
    var xregs: seq<bv64>

    ghost predicate Valid()
      reads this
    {
      |xregs| == NUM_REGS
    }

    /** Every register 0 except `sp`, which starts at the top of the address space. */
    constructor ()
      ensures Valid() && xregs == InitialRegs()
    {
      var regs := seq(NUM_REGS, _ => 0 as bv64);
      regs := regs[0 := 0];
      regs := regs[SP := SP_INIT];
      xregs := regs;
    }

    /** `read(index)`: the register at `index`, or nothing outside 0..31. */
    function Read(index: int): (r: Option<bv64>)
      requires Valid()
      reads this
      ensures r.Some? <==> 0 <= index < NUM_REGS
      ensures r.Some? ==> r.value == xregs[index]
    {
      ReadReg(xregs, index)
    }

    /** `write(index, value)`: replace one register; an index outside 0..31 is ignored. */
    method Write(index: int, value: bv64)
      requires Valid()
      modifies this
      ensures Valid() && xregs == WriteReg(old(xregs), index, value)
    {
      if 0 <= index < NUM_REGS {
        xregs := xregs[index := value];
      }
    }

    /** `dump`: zero register 0 (the printing is not modelled). */
    method Dump()
      requires Valid()
      modifies this
      ensures Valid() && xregs == Dumped(old(xregs))
    {
      xregs := xregs[0 := 0];
    }
  }

  class Cpu {
    const xregs: XRegisters
    var pc: bv64
    const dram: Dram

    ghost predicate Valid()
      reads this, xregs, dram
    {
      xregs.Valid() && dram.Valid()
    }

    /** The machine state the object holds. */
    ghost function State(): Machine
      reads this, xregs, dram, dram.dram
    {
      Machine(xregs.xregs, pc, dram.dram[..])
    }

    /** Fresh registers, `pc` 0 and a zeroed memory of the default size. */
    constructor ()
      ensures Valid() && fresh(xregs) && fresh(dram) && fresh(dram.dram)
      ensures State() == Machine(InitialRegs(), 0, Zeros(DEFAULT_SIZE))
    {
      xregs := new XRegisters();
      pc := 0;
      dram := new Dram([]);
    }

    /** `fetch`: the word at `pc`, or nothing where the code raises IndexError. */
    function Fetch(): (r: Option<bv32>)
      requires Valid()
      reads this, xregs, dram, dram.dram
      ensures r == Semantics.Fetch(State())
    {
      var bytes := dram.Load(pc as nat, 4);
      if |bytes| < 4 then None else Some(Word(bytes))
    }

    /** `loadint`: the bytes at `addr` read as a signed little-endian number. */
    function LoadInt(addr: nat, size: nat): (r: bv64)
      requires Valid() && size <= 8
      reads this, xregs, dram, dram.dram
      ensures r == Semantics.LoadInt(dram.dram[..], addr, size)
    {
      SignedLe(dram.Load(addr, size))
    }

    /** The register at `index`, which the decoder guarantees is in range. */
    function Reg(index: nat): (r: bv64)
      requires xregs.Valid() && index < NUM_REGS
      reads this, xregs
      ensures r == xregs.xregs[index]
    {
      xregs.Read(index).value
    }

    /** Whether the model can carry out `inst`: any instruction but a SW that writes past the end of memory. */
    function StoreFits(inst: bv32): (r: bool)
      requires Valid()
      reads this, xregs, dram, dram.dram
      ensures r == StoreInBounds(State(), inst)
    {
      !IsStoreWord(inst) || Add(Reg(Rs1(inst)), ImmS(inst)) as int + 4 <= dram.size
    }

    /**
     * `execute(inst)`, with `pc` already past `inst`: perform the case of its
     * opcode and report whether the opcode was recognised.
     */
    method Execute(inst: bv32) returns (ok: bool)
      requires Valid() && StoreInBounds(State(), inst)
      modifies this, xregs, dram.dram
      ensures Valid()
      ensures Executed(ok, State()) == Exec(old(State()), inst)
    {
      var opcode := Opcode(inst);
      ghost var m := State();
      ok := true;
      if opcode == OP_IMM {
        ExecuteOpImm(inst);
        Execution.DispatchOpImm(m, inst);
      } else if opcode == OP {
        ExecuteOp(inst);
        Execution.DispatchOp(m, inst);
      } else if opcode == LOAD {
        ExecuteLoad(inst);
        Execution.DispatchLoad(m, inst);
      } else if opcode == STORE {
        ExecuteStore(inst);
        Execution.DispatchStore(m, inst);
      } else if opcode == BRANCH {
        ExecuteBranch(inst);
        Execution.DispatchBranch(m, inst);
      } else if opcode == JALR {
        ExecuteJalr(inst);
        Execution.DispatchJalr(m, inst);
      } else if opcode == JAL {
        ExecuteJal(inst);
        Execution.DispatchJal(m, inst);
      } else {
        ok := false;
      }
    }

    /** Opcode 0x13: rd := rs1 + I-immediate. */
    method ExecuteOpImm(inst: bv32)
      requires Valid()
      modifies xregs
      ensures Valid() && State() == ExecOpImm(old(State()), inst).next
    {
      var value := Add(Reg(Rs1(inst)), ImmI(inst));
      xregs.Write(Rd(inst), value);
    }

    /** Opcode 0x33: rd := rs1 + rs2. */
    method ExecuteOp(inst: bv32)
      requires Valid()
      modifies xregs
      ensures Valid() && State() == ExecOp(old(State()), inst).next
    {
      var value := Add(Reg(Rs1(inst)), Reg(Rs2(inst)));
      xregs.Write(Rd(inst), value);
    }

    /** Opcode 0x03: rd := the word at rs1 + offset for LW, 0 for any other width. */
    method ExecuteLoad(inst: bv32)
      requires Valid()
      modifies xregs
      ensures Valid() && State() == ExecLoad(old(State()), inst).next
    {
      var addr := Add(Reg(Rs1(inst)), ImmLoad(inst)) as nat;
      var value: bv64 := 0;
      if Funct3(inst) == 2 {
        value := LoadInt(addr, 4);
      }
      xregs.Write(Rd(inst), value);
    }

    /** Opcode 0x23: SW writes rs2's low four bytes at rs1 + S-immediate; any other width does nothing. */
    method ExecuteStore(inst: bv32)
      requires Valid() && StoreInBounds(State(), inst) && Opcode(inst) == STORE
      modifies dram.dram
      ensures Valid() && State() == ExecStore(old(State()), inst).next
    {
      var addr := Add(Reg(Rs1(inst)), ImmS(inst)) as nat;
      var vbytes := LeBytes(Reg(Rs2(inst)), 8);
      if Funct3(inst) == 2 {
        dram.Store(addr, 4, vbytes[0..8]);
      }
    }

    /** Opcode 0x63: BEQ with equal operands moves `pc` by B-immediate - 4; anything else does nothing. */
    method ExecuteBranch(inst: bv32)
      requires Valid()
      modifies this
      ensures Valid() && State() == ExecBranch(old(State()), inst).next
    {
      var cond := false;
      if Funct3(inst) == 0 {
        cond := Reg(Rs1(inst)) == Reg(Rs2(inst));
      }
      if cond {
        pc := Sub(Add(pc, ImmB(inst)), 4);
      }
    }

    /** Opcode 0x67: jump to (rs1 + I-immediate) & ~1 and link rd to the old `pc`. */
    method ExecuteJalr(inst: bv32)
      requires Valid()
      modifies this, xregs
      ensures Valid() && State() == ExecJalr(old(State()), inst).next
    {
      var temp := pc;
      pc := Add(Reg(Rs1(inst)), ImmI(inst)) & CLEAR_BIT0;
      xregs.Write(Rd(inst), temp);
    }

    /** Opcode 0x6f: link rd to `pc`, then move `pc` by J-immediate - 4. */
    method ExecuteJal(inst: bv32)
      requires Valid()
      modifies this, xregs
      ensures Valid() && State() == ExecJal(old(State()), inst).next
    {
      xregs.Write(Rd(inst), pc);
      pc := Sub(Add(pc, ImmJ(inst)), 4);
    }

    /**
     * One iteration of the loop in `run`: fetch, advance `pc`, execute, and
     * `dump` when the opcode is not recognised. Returns why the loop stops, or
     * nothing when it goes on.
     */
    method Cycle() returns (stop: Option<Status>)
      requires Valid()
      modifies this, xregs, dram.dram
      ensures Valid()
      ensures Semantics.Step(old(State())) == if stop.None? then Next(State()) else Stop(stop.value, State())
    {
      ghost var before := State();
      var inst := Fetch();
      if inst.None? {
        Running.StepFetchFault(before);
        return Some(FetchFault);
      }
      pc := Add(pc, 4);
      if !StoreFits(inst.value) {
        Running.StepStoreFault(before, inst.value);
        return Some(StoreFault);
      }
      var ok := Execute(inst.value);
      if ok {
        Running.StepExecutes(before, inst.value);
        return None;
      }
      Running.StepHalts(before, inst.value);
      xregs.Dump();
      return Some(Halted);
    }

    /**
     * `run` for at most `fuel` iterations: repeat `Cycle` until it reports a
     * reason to stop or the budget is spent.
     */
    method Run(fuel: nat) returns (status: Status)
      requires Valid()
      modifies this, xregs, dram.dram
      ensures Valid()
      ensures Outcome(status, State()) == Semantics.Run(old(State()), fuel)
    {
      ghost var start := State();
      var n := fuel;
      while n > 0
        invariant Valid()
        invariant Semantics.Run(State(), n) == Semantics.Run(start, fuel)
        decreases n
      {
        ghost var before := State();
        var stop := Cycle();
        Running.RunUnfold(before, n);
        if stop.Some? {
          return stop.value;
        }
        n := n - 1;
      }
      return OutOfFuel;
    }
  }
}
