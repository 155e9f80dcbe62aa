/** The LS-8 machine: 256 bytes of RAM, eight registers (R7 the stack pointer),
    the program counter PC, the instruction register IR and the flags register
    FL, with the operations that load a program, read and write memory, run
    the ALU on registers and execute one fetch/decode/execute cycle. */
module Cpu {
  import opened Wrappers
  import opened Bits
  import opened Opcodes
  import opened Faults
  import opened Alu

  const RAM_SIZE: nat := 256
  const REGISTER_COUNT: nat := 8
  /** R7 is the stack pointer; at power-on it points at 0xF4. */
  const SP: nat := 7
  const SP_POWER_ON: int := 0xF4

  /** How a cycle ends: ready for the next one, stopped by HLT, or stopped by an error. */
  datatype StepOutcome = Continue | Halted | Fault(error: Error)

  /** The machine state, as a value. */
  datatype State = State(ram: seq<int>, reg: seq<int>, pc: int, ir: int, fl: int)

  predicate StateOk(s: State) {
    |s.ram| == RAM_SIZE && RegistersOk(s.reg) && FlagsWellFormed(s.fl) && s.pc >= 0
  }

  /** `ram_read(addr)`: the word stored at addr; an address outside RAM is an error. */
  function ReadAt(ram: seq<int>, addr: int): (r: Result<int, Error>)
    ensures r.Ok? <==> 0 <= addr < |ram|
    ensures r.Ok? ==> r.value == ram[addr]
    ensures r.Err? ==> r.error == OutOfBounds(addr)
  {
    if 0 <= addr < |ram| then Ok(ram[addr]) else Err(OutOfBounds(addr))
  }

  /** The PC after an instruction that did not halt: unchanged when the
      instruction sets PC itself, else moved past the opcode and its operands. */
  function AdvancePc(pc: int, d: Descriptor): (r: int)
    ensures r == pc <==> d.setsPc
    ensures r != pc ==> r == pc + d.operands + 1
  {
    if d.setsPc then pc else pc + d.operands + 1
  }

  /** One fetch/decode/execute cycle. The opcode is fetched at PC into IR and
      both operand bytes are read at PC + 1 and PC + 2; any of the three
      addresses outside RAM is an error. */
  function Next(s: State): (r: (StepOutcome, State))
    requires StateOk(s)
    ensures StateOk(r.1)
    ensures r.1.ram == s.ram
  {
    match ReadAt(s.ram, s.pc)
    case Err(e) => (Fault(e), s)
    case Ok(opcode) =>
      var fetched := s.(ir := opcode);
      match ReadAt(s.ram, s.pc + 1)
      case Err(e) => (Fault(e), fetched)
      case Ok(operandA) =>
        match ReadAt(s.ram, s.pc + 2)
        case Err(e) => (Fault(e), fetched)
        case Ok(operandB) => Execute(fetched, operandA, operandB)
  }

  /** Decodes and executes the instruction in IR: an opcode outside the table
      is an error; an instruction with the ALU bit goes to the ALU; HLT stops
      the machine; every other table entry has no effect beyond the PC update. */
  function Execute(s: State, operandA: int, operandB: int): (r: (StepOutcome, State))
    requires StateOk(s)
    ensures StateOk(r.1)
    ensures r.1.ram == s.ram
  {
    match Lookup(s.ir)
    case None => (Fault(UnknownOpcode(s.ir)), s)
    case Some(op) =>
      TableAgreesWithEncoding(s.ir);
      var d := Decode(s.ir);
      if d.isAlu then
        match AluEffect(op, s.reg, s.fl, operandA, operandB)
        case Err(e) => (Fault(e), s)
        case Ok((regs, fl)) => (Continue, s.(reg := regs, fl := fl, pc := AdvancePc(s.pc, d)))
      else if op == HLT then (Halted, s)
      else (Continue, s.(pc := AdvancePc(s.pc, d)))
  }

  class CPU {
    var ram: array<int>
    var reg: array<int>
    var pc: int
    var ir: int
    var fl: int

    ghost predicate Valid()
      reads this, ram, reg
    {
      ram.Length == RAM_SIZE && reg.Length == REGISTER_COUNT && ram != reg
      && RegistersOk(reg[..]) && FlagsWellFormed(fl) && pc >= 0
    }

    ghost function Snapshot(): (s: State)
      reads this, ram, reg
      requires Valid()
      ensures StateOk(s)
    {
      State(ram[..], reg[..], pc, ir, fl)
    }

    /** Power-on state: RAM all zero, R0-R6 zero, R7 = 0xF4, PC = IR = FL = 0. */
    constructor ()
      ensures Valid() && fresh(ram) && fresh(reg)
      ensures ram[..] == seq(RAM_SIZE, _ => 0)
      ensures reg[..] == [0, 0, 0, 0, 0, 0, 0, SP_POWER_ON]
      ensures pc == 0 && ir == 0 && fl == 0
    {
      var memory := new int[RAM_SIZE](_ => 0);
      var registers := new int[REGISTER_COUNT](_ => 0);
      registers[SP] := SP_POWER_ON;
      ram, reg := memory, registers;
      pc, ir, fl := 0, 0, 0;
    }

    /** `load`: copies the program into RAM from address 0 on, one word per
        address, and fails at address 256 once RAM is full. */
    method Load(program: seq<int>) returns (r: Outcome<Error>)
      requires Valid()
      modifies ram
      ensures Valid()
      ensures forall i :: 0 <= i < RAM_SIZE ==> ram[i] == if i < |program| then program[i] else old(ram[i])
      ensures r == if |program| <= RAM_SIZE then Pass else Fail(OutOfBounds(RAM_SIZE))
    {
      var address := 0;
      while address < |program|
        invariant 0 <= address <= |program| && address <= RAM_SIZE
        invariant Valid()
        invariant forall i :: 0 <= i < RAM_SIZE ==> ram[i] == if i < address then program[i] else old(ram[i])
      {
        if address == RAM_SIZE {
          return Fail(OutOfBounds(address));
        }
        ram[address] := program[address];
        address := address + 1;
      }
      return Pass;
    }

    /** `ram_read`: the word at addr, or OutOfBounds. */
    method RamRead(addr: int) returns (r: Result<int, Error>)
      requires Valid()
      ensures r == ReadAt(ram[..], addr)
    {
      if 0 <= addr < ram.Length {
        return Ok(ram[addr]);
      }
      return Err(OutOfBounds(addr));
    }

    /** `ram_write`: stores value at addr as given, and reports (Ok(true)) when
        the value does not fit in a byte. */
    method RamWrite(addr: int, value: int) returns (r: Result<bool, Error>)
      requires Valid()
      modifies ram
      ensures Valid()
      ensures 0 <= addr < RAM_SIZE ==> r == Ok(!IsByte(value)) && ram[..] == old(ram[..])[addr := value]
      ensures !(0 <= addr < RAM_SIZE) ==> r == Err(OutOfBounds(addr)) && ram[..] == old(ram[..])
    {
      var warning := Mask(value) != value;
      if !(0 <= addr < ram.Length) {
        return Err(OutOfBounds(addr));
      }
      ram[addr] := value;
      return Ok(warning);
    }

    /** `alu(op, reg_a, reg_b)`: applies op to registers reg_a and reg_b in
        place, writing the masked result to reg_a, or for CMP the flags to FL. */
    method Alu(op: Instr, regA: int, regB: int) returns (r: Outcome<Error>)
      requires Valid()
      modifies reg, this`fl
      ensures Valid()
      ensures match AluEffect(op, old(reg[..]), old(fl), regA, regB)
              case Ok((regs, f)) => r == Pass && reg[..] == regs && fl == f
              case Err(e) => r == Fail(e) && reg[..] == old(reg[..]) && fl == old(fl)
    {
      ghost var before := reg[..];
      ghost var effect := AluEffect(op, before, fl, regA, regB);
      if !IsAluOp(op) {
        assert effect == Err(UnsupportedAluOp(op));
        return Fail(UnsupportedAluOp(op));
      }
      if op == DIV || op == MOD {
        if !IsRegister(regB) {
          assert effect == Err(InvalidRegister(regB));
          return Fail(InvalidRegister(regB));
        }
        if reg[regB] == 0 {
          assert effect == Err(DivisionByZero(op));
          return Fail(DivisionByZero(op));
        }
      }
      if !IsRegister(regA) {
        assert effect == Err(InvalidRegister(regA));
        return Fail(InvalidRegister(regA));
      }
      if UsesRegB(op) && !IsRegister(regB) {
        assert effect == Err(InvalidRegister(regB));
        return Fail(InvalidRegister(regB));
      }
      if op == CMP {
        fl := CompareFlags(reg[regA], reg[regB]);
        assert effect == Ok((before, fl));
        return Pass;
      }
      var b := if UsesRegB(op) then reg[regB] else 0;
      ghost var v := Compute(op, before[regA], b);
      AluEffectOfValueOp(op, before, fl, regA, regB);
      assert effect == Ok((before[regA := v], fl));
      var raw := Raw(op, reg[regA], b);
      assert Mask(raw) == v;
      reg[regA] := raw;
      MaskRegister(regA);
      assert reg[..] == before[regA := v];
      if UsesRegB(op) {
        MaskRegister(regB);
        assert reg[..] == before[regA := v];
      }
      assert RegistersOk(reg[..]);
      return Pass;
    }

    /** `reg[i] &= 0xFF`: wraps register i to a byte, leaving the others alone. */
    method MaskRegister(i: int)
      requires 0 <= i < reg.Length
      modifies reg
      ensures reg[..] == old(reg[..])[i := Mask(old(reg[i]))]
    {
      reg[i] := Mask(reg[i]);
    }

    /** One cycle of `run`: fetch, decode, dispatch to the ALU or stop on HLT,
        then advance PC unless the instruction sets it. */
    method Step() returns (r: StepOutcome)
      requires Valid()
      modifies this, reg
      ensures ram == old(ram) && reg == old(reg) && Valid()
      ensures (r, Snapshot()) == Next(old(Snapshot()))
    {
      ghost var s0 := Snapshot();
      var fetched := RamRead(pc);
      if fetched.Err? {
        return Fault(fetched.error);
      }
      ir := fetched.value;
      ghost var s1 := s0.(ir := ir);
      assert Snapshot() == s1;
      var a := RamRead(pc + 1);
      if a.Err? {
        return Fault(a.error);
      }
      var b := RamRead(pc + 2);
      if b.Err? {
        return Fault(b.error);
      }
      var operandA, operandB := a.value, b.value;
      var entry := Lookup(ir);
      if entry.None? {
        return Fault(UnknownOpcode(ir));
      }
      TableAgreesWithEncoding(ir);
      var d := Decode(ir);
      if d.isAlu {
        ghost var effect := AluEffect(entry.value, s0.reg, s0.fl, operandA, operandB);
        var result := Alu(entry.value, operandA, operandB);
        if result.Fail? {
          assert Snapshot() == s1;
          return Fault(result.error);
        }
        assert Snapshot() == s1.(reg := effect.value.0, fl := effect.value.1);
      } else if entry.value == HLT {
        return Halted;
      }
      pc := AdvancePc(pc, d);
      return Continue;
    }
  }

  /** CMP's flag update: clears FL, then sets E, L and G one bit at a time. */
  method CompareFlags(valA: int, valB: int) returns (flags: int)
    ensures flags == CmpFlags(valA, valB)
  {
    flags := 0;
    flags := WithFlag(flags, E_BIT, valA == valB);
    flags := WithFlag(flags, L_BIT, valA < valB);
    flags := WithFlag(flags, G_BIT, valA > valB);
    CmpFlagsBuiltBitwise(valA, valB);
  }

  /** Clearing FL and then setting E, L and G one bit at a time, as CMP does,
      gives the flags byte of the comparison. */
  lemma CmpFlagsBuiltBitwise(a: int, b: int)
    ensures WithFlag(WithFlag(WithFlag(0, E_BIT, a == b), L_BIT, a < b), G_BIT, a > b) == CmpFlags(a, b)
  {
    var f1 := WithFlag(0, E_BIT, a == b);
    var f2 := WithFlag(f1, L_BIT, a < b);
    var f3 := WithFlag(f2, G_BIT, a > b);
    forall i | 0 <= i < 8
      ensures Bit(f3, i) == Bit(CmpFlags(a, b), i)
    {
      WithFlagBit(0, E_BIT, a == b, i);
      WithFlagBit(f1, L_BIT, a < b, i);
      WithFlagBit(f2, G_BIT, a > b, i);
      ZeroBit(i);
      CmpFlagsMeaning(a, b, i);
    }
    assert Pow2(8) == 256;
    assert CmpFlags(a, b) < 8;
    BitsDetermine(f3, CmpFlags(a, b), 8);
  }
}
