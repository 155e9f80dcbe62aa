/** The LS-8 instruction encoding: the closed opcode table and the decoding of
    an opcode byte laid out as `AABCDDDD` (AA operand count, B the ALU flag,
    C the sets-PC flag, DDDD the instruction identifier). */
module Opcodes {
  import opened Wrappers
  import opened Bits

  /** Every operation named in the opcode table. */
  datatype Instr =
    | ADD | AND | CALL | CMP | DEC | DIV | HLT | INC | INT | IRET
    | JEQ | JGE | JGT | JLE | JLT | JMP | JNE | LD | LDI | MOD
    | MUL | NOP | NOT | OR | POP | PRA | PRN | PUSH | RET | SHL
    | SHR | ST | SUB | XOR

  /** The fourteen operations carried out by the ALU. */
  predicate IsAluOp(op: Instr) {
    match op
    case ADD | AND | CMP | DEC | DIV | INC | MOD | MUL | NOT | OR | SHL | SHR | SUB | XOR => true
    case _ => false
  }

  /** The instructions that choose the next PC themselves: calls, returns and jumps. */
  predicate SetsPcOp(op: Instr) {
    match op
    case CALL | RET | INT | IRET | JMP | JEQ | JNE | JGT | JLT | JLE | JGE => true
    case _ => false
  }

  /** The opcode table: the operation a byte stands for, if any. */
  function Lookup(b: int): (r: Option<Instr>)
    ensures r.Some? ==> IsByte(b)
  {
    match b
    case 0xA0 => Some(ADD)
    case 0xA8 => Some(AND)
    case 0x50 => Some(CALL)
    case 0xA7 => Some(CMP)
    case 0x66 => Some(DEC)
    case 0xA3 => Some(DIV)
    case 0x01 => Some(HLT)
    case 0x65 => Some(INC)
    case 0x52 => Some(INT)
    case 0x13 => Some(IRET)
    case 0x55 => Some(JEQ)
    case 0x5A => Some(JGE)
    case 0x57 => Some(JGT)
    case 0x59 => Some(JLE)
    case 0x58 => Some(JLT)
    case 0x54 => Some(JMP)
    case 0x56 => Some(JNE)
    case 0x83 => Some(LD)
    case 0x82 => Some(LDI)
    case 0xA4 => Some(MOD)
    case 0xA2 => Some(MUL)
    case 0x00 => Some(NOP)
    case 0x69 => Some(NOT)
    case 0xAA => Some(OR)
    case 0x46 => Some(POP)
    case 0x48 => Some(PRA)
    case 0x47 => Some(PRN)
    case 0x45 => Some(PUSH)
    case 0x11 => Some(RET)
    case 0xAC => Some(SHL)
    case 0xAD => Some(SHR)
    case 0x84 => Some(ST)
    case 0xA1 => Some(SUB)
    case 0xAB => Some(XOR)
    case _ => None
  }

  /** The opcode byte of each operation: the table read backwards, so that
      looking the byte up gives the operation back. */
  function OpcodeOf(op: Instr): (b: int)
    ensures IsByte(b)
    ensures Lookup(b) == Some(op)
  {
    match op
    case ADD => 0xA0
    case AND => 0xA8
    case CALL => 0x50
    case CMP => 0xA7
    case DEC => 0x66
    case DIV => 0xA3
    case HLT => 0x01
    case INC => 0x65
    case INT => 0x52
    case IRET => 0x13
    case JEQ => 0x55
    case JGE => 0x5A
    case JGT => 0x57
    case JLE => 0x59
    case JLT => 0x58
    case JMP => 0x54
    case JNE => 0x56
    case LD => 0x83
    case LDI => 0x82
    case MOD => 0xA4
    case MUL => 0xA2
    case NOP => 0x00
    case NOT => 0x69
    case OR => 0xAA
    case POP => 0x46
    case PRA => 0x48
    case PRN => 0x47
    case PUSH => 0x45
    case RET => 0x11
    case SHL => 0xAC
    case SHR => 0xAD
    case ST => 0x84
    case SUB => 0xA1
    case XOR => 0xAB
  }

  /** A byte the table names is the opcode of that operation; with
      `OpcodeOf`'s contract, the table is a bijection between its 34 bytes and Instr. */
  lemma TableRoundTrip(op: Instr, b: int)
    ensures Lookup(b) == Some(op) ==> OpcodeOf(op) == b
  {
  }

  // ---------------------------------------------------------------------
  // Binary strings, the form in which the prototype inspects an opcode.

  function Digit(bit: bool): char {
    if bit then '1' else '0'
  }

  /** `bin(n)[2:].zfill(w)` for n below 2^w: the w low bits of n, most significant first. */
  function ToBinary(n: nat, w: nat): (s: string)
    ensures |s| == w
  {
    if w == 0 then [] else ToBinary(n / 2, w - 1) + [Digit(n % 2 == 1)]
  }

  /** `int(s, 2)`: the value of a string of binary digits. */
  function FromBinary(s: string): nat {
    if s == [] then 0
    else 2 * FromBinary(s[..|s| - 1]) + (if s[|s| - 1] == '1' then 1 else 0)
  }

  /** Character w - 1 - i of the binary string is bit i. */
  lemma {:induction false} ToBinaryBit(n: nat, w: nat, i: nat)
    requires i < w
    ensures ToBinary(n, w)[w - 1 - i] == Digit(Bit(n, i))
  {
    if i > 0 {
      ToBinaryBit(n / 2, w - 1, i - 1);
    }
  }

  /** Reading back the w-digit string of n gives n modulo 2^w, and n itself
      when n has at most w binary digits. */
  lemma {:induction false} FromToBinary(n: nat, w: nat)
    ensures FromBinary(ToBinary(n, w)) == n % Pow2(w)
    ensures n < Pow2(w) ==> FromBinary(ToBinary(n, w)) == n
  {
    if w > 0 {
      var s := ToBinary(n, w);
      assert s[..w - 1] == ToBinary(n / 2, w - 1);
      FromToBinary(n / 2, w - 1);
      ModDouble(n, Pow2(w - 1));
    }
  }

  /** The first k digits of the w-digit string of n are the k-digit string of n >> (w - k). */
  lemma {:induction false} ToBinaryPrefix(n: nat, w: nat, k: nat)
    requires k <= w
    ensures ToBinary(n, w)[..k] == ToBinary(Shr(n, w - k), k)
    decreases w - k
  {
    if k < w {
      assert ToBinary(n, w)[..k] == ToBinary(n / 2, w - 1)[..k];
      ToBinaryPrefix(n / 2, w - 1, k);
    }
  }

  /** The last k digits of the w-digit string of n are the k-digit string of n mod 2^k. */
  lemma {:induction false} ToBinarySuffix(n: nat, w: nat, k: nat)
    requires k <= w
    ensures ToBinary(n, w)[w - k..] == ToBinary(n % Pow2(k), k)
  {
    if k > 0 {
      var s := ToBinary(n / 2, w - 1);
      assert ToBinary(n, w)[w - k..] == s[w - k..] + [Digit(n % 2 == 1)];
      ToBinarySuffix(n / 2, w - 1, k - 1);
      ModDouble(n, Pow2(k - 1));
    }
  }

  // ---------------------------------------------------------------------
  // Decoding an opcode byte.

  /** What the opcode byte says about the instruction, before the table is consulted. */
  datatype Descriptor = Descriptor(operands: nat, isAlu: bool, setsPc: bool, identifier: nat)

  /** Splits an opcode byte into its AA, B, C and DDDD fields. */
  function Decode(b: int): (d: Descriptor)
    requires IsByte(b)
    ensures d.operands < 4 && d.identifier < 16
    ensures b == 64 * d.operands + (if d.isAlu then 32 else 0)
                 + (if d.setsPc then 16 else 0) + d.identifier
  {
    ByteLayout(b);
    Descriptor(b / 64, (b / 32) % 2 == 1, (b / 16) % 2 == 1, b % 16)
  }

  /** Reading the fields off the eight-digit binary string of the byte, as the
      prototype does (`bin_ir[:2]`, `bin_ir[2]`, `bin_ir[3]`, `bin_ir[4:]`),
      gives the same fields as `Decode`. */
  lemma DecodeReadsBinary(b: int)
    requires IsByte(b)
    ensures var bin := ToBinary(b, 8);
      Decode(b) == Descriptor(FromBinary(bin[..2]), bin[2] == '1', bin[3] == '1', FromBinary(bin[4..]))
  {
    DecodeFields(b);
  }

  /** A byte is the sum of its AA, B, C and DDDD fields. */
  lemma ByteLayout(b: int)
    requires IsByte(b)
    ensures b == 64 * (b / 64) + 32 * ((b / 32) % 2) + 16 * ((b / 16) % 2) + b % 16
  {
    assert b == 16 * (b / 16) + b % 16;
    assert b / 32 == (b / 16) / 2;
    assert b / 64 == (b / 32) / 2;
    assert b / 16 == 2 * (b / 32) + (b / 16) % 2;
    assert b / 32 == 2 * (b / 64) + (b / 32) % 2;
  }

  /** The string-based fields are the arithmetic fields of the byte. */
  lemma DecodeFields(b: int)
    requires IsByte(b)
    ensures FromBinary(ToBinary(b, 8)[..2]) == b / 64
    ensures ToBinary(b, 8)[2] == '1' <==> (b / 32) % 2 == 1
    ensures ToBinary(b, 8)[3] == '1' <==> (b / 16) % 2 == 1
    ensures FromBinary(ToBinary(b, 8)[4..]) == b % 16
  {
    OperandField(b);
    FlagField(b, 5);
    FlagField(b, 4);
    IdentifierField(b);
  }

  lemma OperandField(b: int)
    requires IsByte(b)
    ensures FromBinary(ToBinary(b, 8)[..2]) == b / 64
  {
    assert Pow2(2) == 4 && Pow2(6) == 64;
    ToBinaryPrefix(b, 8, 2);
    ShrIsDivision(b, 6);
    FromToBinary(b / 64, 2);
  }

  lemma IdentifierField(b: int)
    requires IsByte(b)
    ensures FromBinary(ToBinary(b, 8)[4..]) == b % 16
  {
    assert Pow2(4) == 16;
    var low := b % 16;
    ToBinarySuffix(b, 8, 4);
    assert ToBinary(b, 8)[4..] == ToBinary(low, 4);
    FromToBinary(low, 4);
    assert low % 16 == low;
  }

  lemma FlagField(b: int, i: nat)
    requires IsByte(b) && i < 8
    ensures ToBinary(b, 8)[7 - i] == '1' <==> (b / Pow2(i)) % 2 == 1
  {
    ToBinaryBit(b, 8, i);
    ShiftRightBit(b, i, 0);
    ShrIsDivision(b, i);
  }

  /** The table agrees with the encoding: an entry has the ALU bit exactly when
      it is one of the fourteen ALU operations, the sets-PC bit exactly when it
      is a call, return or jump, and never more than two operands. */
  lemma TableAgreesWithEncoding(b: int)
    requires Lookup(b).Some?
    ensures IsByte(b)
    ensures Decode(b).isAlu <==> IsAluOp(Lookup(b).value)
    ensures Decode(b).setsPc <==> SetsPcOp(Lookup(b).value)
    ensures Decode(b).operands <= 2
  {
    var op := Lookup(b).value;
    TableRoundTrip(op, b);
    EncodingOfOp(op);
  }

  /** The B, C and AA fields of each opcode in the table. */
  lemma EncodingOfOp(op: Instr)
    ensures (OpcodeOf(op) / 32) % 2 == 1 <==> IsAluOp(op)
    ensures (OpcodeOf(op) / 16) % 2 == 1 <==> SetsPcOp(op)
    ensures OpcodeOf(op) / 64 <= 2
  {
  }
}
