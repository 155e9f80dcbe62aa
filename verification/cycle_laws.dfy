/** Properties of one machine cycle. */
module CycleLaws {
  import opened Wrappers
  import opened Bits
  import opened Opcodes
  import opened Faults
  import opened Alu
  import opened Cpu

  /** The opcode byte at PC, when PC and both operand addresses lie in RAM. */
  predicate FetchInRange(s: State) {
    |s.ram| == RAM_SIZE && 0 <= s.pc && s.pc + 2 < RAM_SIZE
  }

  /** When PC + 2 lies past the end of RAM the fetch fails with OutOfBounds,
      naming the first of PC, PC + 1 and PC + 2 outside RAM; IR holds the
      opcode byte when PC itself was still inside RAM. */
  lemma FetchOutOfRange(s: State)
    requires StateOk(s) && s.pc + 2 >= RAM_SIZE
    ensures s.pc >= RAM_SIZE ==> Next(s) == (Fault(OutOfBounds(s.pc)), s)
    ensures s.pc < RAM_SIZE ==>
      Next(s) == (Fault(OutOfBounds(if s.pc + 1 >= RAM_SIZE then s.pc + 1 else s.pc + 2)), s.(ir := s.ram[s.pc]))
  {
  }

  /** An HLT in the last byte of RAM never runs: fetching its operands fails at address 256. */
  lemma HltAtEndFaults(s: State)
    requires StateOk(s) && s.pc == RAM_SIZE - 1 && s.ram[s.pc] == OpcodeOf(HLT)
    ensures Next(s) == (Fault(OutOfBounds(RAM_SIZE)), s.(ir := OpcodeOf(HLT)))
  {
    FetchOutOfRange(s);
  }

  /** HLT stops the machine with PC still on the HLT instruction and nothing else changed. */
  lemma HltHalts(s: State)
    requires StateOk(s) && FetchInRange(s) && s.ram[s.pc] == OpcodeOf(HLT)
    ensures Next(s) == (Halted, s.(ir := OpcodeOf(HLT)))
  {
  }

  /** A byte outside the opcode table stops the machine with UnknownOpcode. */
  lemma UnknownOpcodeFaults(s: State)
    requires StateOk(s) && FetchInRange(s) && Lookup(s.ram[s.pc]).None?
    ensures Next(s) == (Fault(UnknownOpcode(s.ram[s.pc])), s.(ir := s.ram[s.pc]))
  {
  }

  /** A cycle that stops, by HLT or by an error, changes nothing but IR. */
  lemma StopLeavesState(s: State)
    requires StateOk(s) && Next(s).0 != Continue
    ensures Next(s).1 == s.(ir := Next(s).1.ir)
  {
  }

  /** The decoder only sends table entries with the ALU bit to the ALU, and
      those are ALU operations: a cycle never fails with UnsupportedAluOp. */
  lemma NeverUnsupported(s: State)
    requires StateOk(s)
    ensures !(Next(s).0.Fault? && Next(s).0.error.UnsupportedAluOp?)
  {
    if FetchInRange(s) && Lookup(s.ram[s.pc]).Some? {
      TableAgreesWithEncoding(s.ram[s.pc]);
    }
  }

  /** After a cycle that continues, PC has moved past the opcode and its
      operands (operand count + 1), except for calls, returns and jumps,
      which leave it to the instruction. */
  lemma PcRule(s: State)
    requires StateOk(s) && Next(s).0 == Continue
    ensures FetchInRange(s) && Lookup(s.ram[s.pc]).Some?
    ensures IsByte(s.ram[s.pc])
    ensures SetsPcOp(Lookup(s.ram[s.pc]).value) ==> Next(s).1.pc == s.pc
    ensures !SetsPcOp(Lookup(s.ram[s.pc]).value) ==> Next(s).1.pc == s.pc + s.ram[s.pc] / 64 + 1
  {
    TableAgreesWithEncoding(s.ram[s.pc]);
  }

  /** DIV or MOD with a zero divisor in reg_b stops the machine with
      DivisionByZero, whatever reg_a names, and changes nothing but IR. */
  lemma DivisionByZeroCycle(s: State, op: Instr)
    requires StateOk(s) && FetchInRange(s) && Lookup(s.ram[s.pc]) == Some(op) && op in {DIV, MOD}
    requires IsRegister(s.ram[s.pc + 2]) && s.reg[s.ram[s.pc + 2]] == 0
    ensures Next(s) == (Fault(DivisionByZero(op)), s.(ir := s.ram[s.pc]))
  {
    FetchThenExecute(s);
    TableAgreesWithEncoding(s.ram[s.pc]);
  }

  /** An ALU instruction writes only its destination register, or for CMP only FL. */
  lemma AluCycleFrame(s: State)
    requires StateOk(s) && Next(s).0 == Continue
    requires FetchInRange(s) && Lookup(s.ram[s.pc]).Some? && IsAluOp(Lookup(s.ram[s.pc]).value)
    ensures var a, t := s.ram[s.pc + 1], Next(s).1;
      IsRegister(a)
      && (forall i :: 0 <= i < REGISTER_COUNT && i != a ==> t.reg[i] == s.reg[i])
      && (Lookup(s.ram[s.pc]).value == CMP ==> t.reg == s.reg)
      && (Lookup(s.ram[s.pc]).value != CMP ==> t.fl == s.fl)
  {
    var op, a, b := Lookup(s.ram[s.pc]).value, s.ram[s.pc + 1], s.ram[s.pc + 2];
    var fetched := s.(ir := s.ram[s.pc]);
    FetchThenExecute(s);
    TableAgreesWithEncoding(fetched.ir);
    assert AluEffect(op, s.reg, s.fl, a, b).Ok?;
    ExecuteAlu(fetched, op, a, b);
  }

  /** Every other table entry (no handler of its own) changes neither registers nor flags. */
  lemma NonAluCycleFrame(s: State)
    requires StateOk(s) && Next(s).0 == Continue
    requires FetchInRange(s) && Lookup(s.ram[s.pc]).Some? && !IsAluOp(Lookup(s.ram[s.pc]).value)
    ensures Next(s).1.reg == s.reg && Next(s).1.fl == s.fl
  {
    TableAgreesWithEncoding(s.ram[s.pc]);
  }

  /** The program ADD R0,R1; MUL R0,R2; HLT, placed at address 0. */
  function AddMulRam(): (ram: seq<int>)
    ensures |ram| == RAM_SIZE
  {
    [0xA0, 0, 1, 0xA2, 0, 2, 0x01, 0, 0] + seq(247, _ => 0)
  }

  /** The state of the example after k of its cycles, with R0 = x, R1 = y, R2 = z at the start. */
  function AddMulState(k: nat, x: int, y: int, z: int): State
    requires IsByte(x) && IsByte(y) && IsByte(z)
  {
    var sum := Compute(ADD, x, y);
    if k == 0 then State(AddMulRam(), [x, y, z, 0, 0, 0, 0, SP_POWER_ON], 0, 0, 0)
    else if k == 1 then State(AddMulRam(), [sum, y, z, 0, 0, 0, 0, SP_POWER_ON], 3, 0xA0, 0)
    else State(AddMulRam(), [Compute(MUL, sum, z), y, z, 0, 0, 0, 0, SP_POWER_ON], 6, 0xA2, 0)
  }

  /** Executing an ALU instruction that the ALU accepts writes the ALU's
      registers and flags and advances PC past the opcode and its operands. */
  lemma ExecuteAlu(s: State, op: Instr, a: int, b: int)
    requires StateOk(s) && Lookup(s.ir) == Some(op) && IsAluOp(op)
    requires AluEffect(op, s.reg, s.fl, a, b).Ok?
    ensures IsByte(s.ir) && !Decode(s.ir).setsPc
    ensures var e := AluEffect(op, s.reg, s.fl, a, b).value;
      Execute(s, a, b) == (Continue, State(s.ram, e.0, s.pc + Decode(s.ir).operands + 1, s.ir, e.1))
  {
    TableAgreesWithEncoding(s.ir);
    var d := Decode(s.ir);
    assert d.isAlu && !d.setsPc;
    var e := AluEffect(op, s.reg, s.fl, a, b).value;
    assert Execute(s, a, b) == (Continue, s.(reg := e.0, fl := e.1, pc := AdvancePc(s.pc, d)));
  }

  /** With PC and both operand addresses in RAM, a cycle fetches the opcode
      into IR and executes it with the two operand bytes. */
  lemma FetchThenExecute(s: State)
    requires StateOk(s) && FetchInRange(s)
    ensures Next(s) == Execute(s.(ir := s.ram[s.pc]), s.ram[s.pc + 1], s.ram[s.pc + 2])
  {
  }

  /** Cycle 1: ADD R0,R1 leaves x + y (mod 256) in R0 and moves PC to 3. */
  lemma AddMulCycle1(x: int, y: int, z: int)
    requires IsByte(x) && IsByte(y) && IsByte(z)
    ensures Next(AddMulState(0, x, y, z)) == (Continue, AddMulState(1, x, y, z))
  {
    var s := AddMulState(0, x, y, z);
    var fetched := s.(ir := 0xA0);
    assert Next(s) == Execute(fetched, 0, 1) by {
      assert s.ram[0] == 0xA0 && s.ram[1] == 0 && s.ram[2] == 1;
      FetchThenExecute(s);
    }
    assert AluEffect(ADD, fetched.reg, fetched.fl, 0, 1) == Ok((AddMulState(1, x, y, z).reg, 0)) by {
      AluEffectOfValueOp(ADD, s.reg, s.fl, 0, 1);
      assert s.reg[0 := Compute(ADD, x, y)] == AddMulState(1, x, y, z).reg;
    }
    ExecuteAlu(fetched, ADD, 0, 1);
    assert Decode(0xA0).operands == 2;
  }

  /** Cycle 2: MUL R0,R2 leaves (x + y) * z (mod 256) in R0 and moves PC to 6. */
  lemma AddMulCycle2(x: int, y: int, z: int)
    requires IsByte(x) && IsByte(y) && IsByte(z)
    ensures Next(AddMulState(1, x, y, z)) == (Continue, AddMulState(2, x, y, z))
  {
    var s := AddMulState(1, x, y, z);
    var fetched := s.(ir := 0xA2);
    assert Next(s) == Execute(fetched, 0, 2) by {
      assert s.ram[3] == 0xA2 && s.ram[4] == 0 && s.ram[5] == 2;
      FetchThenExecute(s);
    }
    var sum := Compute(ADD, x, y);
    assert AluEffect(MUL, fetched.reg, fetched.fl, 0, 2) == Ok((AddMulState(2, x, y, z).reg, 0)) by {
      AluEffectOfValueOp(MUL, s.reg, s.fl, 0, 2);
      assert s.reg[0 := Compute(MUL, sum, z)] == AddMulState(2, x, y, z).reg;
    }
    ExecuteAlu(fetched, MUL, 0, 2);
    assert Decode(0xA2).operands == 2;
  }

  /** Cycle 3: HLT stops the machine with PC on the HLT at address 6; with
      R0 = 5, R1 = 3 and R2 = 2 at the start, R0 then holds 16. */
  lemma AddMulCycle3(x: int, y: int, z: int)
    requires IsByte(x) && IsByte(y) && IsByte(z)
    ensures Next(AddMulState(2, x, y, z)) == (Halted, AddMulState(2, x, y, z).(ir := 0x01))
    ensures AddMulState(2, x, y, z).pc == 6
    ensures AddMulState(2, 5, 3, 2).reg[0] == 16
  {
    var s := AddMulState(2, x, y, z);
    assert s.ram[6] == 0x01 && s.ram[7] == 0 && s.ram[8] == 0;
    HltHalts(s);
  }
}
