/** The LS-8 arithmetic/logic unit: fourteen operations on register values,
    each result masked to 8 bits, and CMP reporting through the `00000LGE`
    flags byte. */
module Alu {
  import opened Wrappers
  import opened Bits
  import opened Opcodes
  import opened Faults

  // ---------------------------------------------------------------------
  // Flags

  /** Bit positions of the three flags in FL. */
  const E_BIT: nat := 0
  const G_BIT: nat := 1
  const L_BIT: nat := 2

  /** What FL can hold: cleared, or exactly one of L, G, E after a CMP. */
  predicate FlagsWellFormed(fl: int) {
    fl == 0 || fl == 1 || fl == 2 || fl == 4
  }

  /** Sets or clears one flag bit, `(fl & ~mask) | (bit << pos)`, leaving the others alone. */
  function WithFlag(fl: nat, pos: nat, on: bool): (r: nat)
    requires fl < 256 && pos < 8
    ensures r < 256
  {
    assert Pow2(8) == 256;
    Pow2Below(pos, 8);
    OrXorBound(Pow2(pos), 255, 8);
    var cleared := And(fl, Xor(Pow2(pos), 255));
    var bit := if on then Pow2(pos) else 0;
    OrXorBound(cleared, bit, 8);
    Or(cleared, bit)
  }

  lemma {:induction false} Pow2Below(k: nat, w: nat)
    requires k < w
    ensures Pow2(k) < Pow2(w)
    decreases w - k
  {
    if k + 1 < w {
      Pow2Below(k + 1, w);
    }
  }

  /** WithFlag changes bit pos to `on` and no other bit. */
  lemma WithFlagBit(fl: nat, pos: nat, on: bool, i: nat)
    requires fl < 256 && pos < 8
    ensures Bit(WithFlag(fl, pos, on), i) <==> if i == pos then on else Bit(fl, i)
  {
    assert Pow2(8) == 256;
    Pow2Below(pos, 8);
    var cleared := And(fl, Xor(Pow2(pos), 255));
    OrBit(cleared, if on then Pow2(pos) else 0, i);
    AndBit(fl, Xor(Pow2(pos), 255), i);
    XorBit(Pow2(pos), 255, i);
    Pow2Bit(pos, i);
    if on {
      Pow2Bit(pos, i);
    } else {
      ZeroBit(i);
    }
    if i < 8 {
      AllOnesBit(i);
    } else {
      HighBitsClear(fl, 8, i);
    }
  }

  /** 255 has its eight low bits set. */
  lemma AllOnesBit(i: nat)
    requires i < 8
    ensures Bit(255, i)
  {
    assert Pow2(8) == 256;
    LowOnes(8, i);
  }

  /** 2^w - 1 has its w low bits set. */
  lemma {:induction false} LowOnes(w: nat, i: nat)
    requires i < w
    ensures Bit(Pow2(w) - 1, i)
  {
    if i > 0 {
      assert (Pow2(w) - 1) / 2 == Pow2(w - 1) - 1;
      LowOnes(w - 1, i - 1);
    }
  }

  /** The flags byte a comparison of a with b produces: `00000LGE`. */
  function CmpFlags(a: int, b: int): (fl: int)
    ensures FlagsWellFormed(fl) && fl != 0
    ensures fl == 1 <==> a == b
    ensures fl == 2 <==> a > b
    ensures fl == 4 <==> a < b
  {
    (if a < b then Pow2(L_BIT) else 0)
    + (if a > b then Pow2(G_BIT) else 0)
    + (if a == b then Pow2(E_BIT) else 0)
  }

  /** After CMP the upper five bits of FL are clear and exactly one of L, G, E
      is set: L when a < b, G when a > b, E when a == b. */
  lemma CmpFlagsMeaning(a: int, b: int, i: nat)
    ensures CmpFlags(a, b) < 8
    ensures 3 <= i ==> !Bit(CmpFlags(a, b), i)
    ensures Bit(CmpFlags(a, b), L_BIT) <==> a < b
    ensures Bit(CmpFlags(a, b), G_BIT) <==> a > b
    ensures Bit(CmpFlags(a, b), E_BIT) <==> a == b
  {
    var fl := CmpFlags(a, b);
    assert Pow2(3) == 8;
    if 3 <= i {
      HighBitsClear(fl, 3, i);
    }
  }

  // ---------------------------------------------------------------------
  // The operations

  /** The ALU operations that produce a value for the destination register. */
  predicate IsValueOp(op: Instr) {
    IsAluOp(op) && op != CMP
  }

  /** The ALU operations that read a second register. */
  predicate UsesRegB(op: Instr) {
    match op
    case INC | DEC | NOT => false
    case _ => true
  }

  /** The divisor is usable: only DIV and MOD can fail. */
  predicate DivisorOk(op: Instr, b: int) {
    (op == DIV || op == MOD) ==> b != 0
  }

  /** The operations whose unmasked result on two bytes is already a byte. */
  predicate StaysInByte(op: Instr) {
    match op
    case AND | DIV | MOD | NOT | OR | SHR | XOR => true
    case _ => false
  }

  /** The unmasked result of one branch of `alu`, as Python's unbounded
      integers give it. */
  function Raw(op: Instr, a: int, b: int): int
    requires IsByte(a) && IsByte(b)
    requires IsValueOp(op) && DivisorOk(op, b)
  {
    match op
    case ADD => a + b
    case AND => And(a, b)
    case DEC => a - 1
    case DIV => a / b
    case INC => a + 1
    case MOD => a % b
    case MUL => a * b
    case NOT => Xor(a, 0xFF)
    case OR => Or(a, b)
    case SHL => Shl(a, b)
    case SHR => Shr(a, b)
    case SUB => a - b
    case XOR => Xor(a, b)
  }

  /** AND, DIV, MOD, NOT, OR, SHR and XOR never leave the byte range on two
      bytes, so the final `& 0xFF` changes nothing for them; only ADD, SUB,
      INC, DEC, MUL and SHL need it. */
  lemma RawStaysInByte(op: Instr, a: int, b: int)
    requires IsByte(a) && IsByte(b) && IsValueOp(op) && DivisorOk(op, b)
    requires StaysInByte(op)
    ensures IsByte(Raw(op, a, b))
    ensures Compute(op, a, b) == Raw(op, a, b)
  {
    var r := Raw(op, a, b);
    assert IsByte(r) by {
      if op == DIV {
        QuotientBelow(a, b);
        assert r == a / b;
      } else if op == MOD {
        assert r == a % b;
      } else if op == AND {
        assert r == And(a, b);
      } else if op == SHR {
        assert r == Shr(a, b);
      } else if op == NOT {
        OrXorBound(a, 0xFF, 8);
        assert r == Xor(a, 0xFF);
      } else if op == OR {
        OrXorBound(a, b, 8);
        assert r == Or(a, b);
      } else {
        OrXorBound(a, b, 8);
        assert r == Xor(a, b);
      }
    }
    assert Compute(op, a, b) == Mask(r);
  }

  /** The byte an ALU operation leaves in the destination register: the
      unmasked result wrapped modulo 256. */
  function Compute(op: Instr, a: int, b: int): (v: int)
    requires IsByte(a) && IsByte(b)
    requires IsValueOp(op) && DivisorOk(op, b)
    ensures IsByte(v)
    ensures (v - Raw(op, a, b)) % 256 == 0
  {
    Mask(Raw(op, a, b))
  }

  /** What the ALU gives back: a value for the destination register, or a new flags byte. */
  datatype AluOut = Value(v: int) | Flags(fl: int)

  /** One ALU operation on two register values. */
  function Apply(op: Instr, a: int, b: int): (r: Result<AluOut, Error>)
    requires IsByte(a) && IsByte(b)
    ensures r.Err? <==> !IsAluOp(op) || !DivisorOk(op, b)
    ensures !IsAluOp(op) ==> r == Err(UnsupportedAluOp(op))
    ensures IsAluOp(op) && !DivisorOk(op, b) ==> r == Err(DivisionByZero(op))
    ensures r.Ok? ==> (r.value.Flags? <==> op == CMP)
    ensures r.Ok? && r.value.Value? ==> IsByte(r.value.v)
    ensures r.Ok? && r.value.Flags? ==> FlagsWellFormed(r.value.fl) && r.value.fl != 0
    ensures IsValueOp(op) && DivisorOk(op, b) ==> r == Ok(Value(Compute(op, a, b)))
    ensures op == CMP ==> r == Ok(Flags(CmpFlags(a, b)))
  {
    if !IsAluOp(op) then Err(UnsupportedAluOp(op))
    else if op == CMP then Ok(Flags(CmpFlags(a, b)))
    else if !DivisorOk(op, b) then Err(DivisionByZero(op))
    else Ok(Value(Compute(op, a, b)))
  }

  // ---------------------------------------------------------------------
  // Laws of the operations on bytes

  /** ADD and SUB undo each other modulo 256. */
  lemma AddSubInverse(a: int, b: int)
    requires IsByte(a) && IsByte(b)
    ensures Compute(SUB, Compute(ADD, a, b), b) == a
    ensures Compute(ADD, Compute(SUB, a, b), b) == a
  {
    var s := Compute(ADD, a, b);
    assert s == (a + b) % 256;
    assert Compute(SUB, s, b) == (s - b) % 256;
    var d := Compute(SUB, a, b);
    assert d == (a - b) % 256;
    assert Compute(ADD, d, b) == (d + b) % 256;
    WrapUndo(a, b);
  }

  /** Adding then subtracting b modulo 256 (and the reverse) returns to a byte a. */
  lemma WrapUndo(a: int, b: int)
    requires IsByte(a) && IsByte(b)
    ensures ((a + b) % 256 - b) % 256 == a
    ensures ((a - b) % 256 + b) % 256 == a
  {
    var k := (a + b) / 256;
    assert (a + b) % 256 == a + b - 256 * k;
    DivUnique((a + b) % 256 - b, 256, -k, a);
    var k' := (a - b) / 256;
    assert (a - b) % 256 == a - b - 256 * k';
    DivUnique((a - b) % 256 + b, 256, -k', a);
  }

  /** INC and DEC undo each other; DEC of 0 wraps to 255 and INC of 255 to 0. */
  lemma IncDecInverse(a: int, b: int)
    requires IsByte(a) && IsByte(b)
    ensures Compute(DEC, Compute(INC, a, b), b) == a
    ensures Compute(INC, Compute(DEC, a, b), b) == a
    ensures Compute(DEC, 0, b) == 255 && Compute(INC, 255, b) == 0
  {
  }

  /** NOT is the 8-bit complement: 255 - a, every bit flipped, and its own inverse. */
  lemma NotIsComplement(a: int, b: int, i: nat)
    requires IsByte(a) && IsByte(b) && i < 8
    ensures Compute(NOT, a, b) == 255 - a
    ensures Bit(Compute(NOT, a, b), i) <==> !Bit(a, i)
    ensures Compute(NOT, Compute(NOT, a, b), b) == a
  {
    assert Pow2(8) == 256;
    XorOnes(a, 8);
    XorOnes(255 - a, 8);
    XorBit(a, 255, i);
    AllOnesBit(i);
  }

  /** AND keeps exactly the bits set in both operands. */
  lemma AndBits(a: int, b: int, i: nat)
    requires IsByte(a) && IsByte(b)
    ensures Bit(Compute(AND, a, b), i) <==> Bit(a, i) && Bit(b, i)
  {
    AndBit(a, b, i);
  }

  /** OR keeps exactly the bits set in either operand. */
  lemma OrBits(a: int, b: int, i: nat)
    requires IsByte(a) && IsByte(b)
    ensures Bit(Compute(OR, a, b), i) <==> Bit(a, i) || Bit(b, i)
  {
    assert Pow2(8) == 256;
    OrXorBound(a, b, 8);
    OrBit(a, b, i);
  }

  /** XOR keeps exactly the bits set in one operand but not the other. */
  lemma XorBits(a: int, b: int, i: nat)
    requires IsByte(a) && IsByte(b)
    ensures Bit(Compute(XOR, a, b), i) <==> Bit(a, i) != Bit(b, i)
  {
    assert Pow2(8) == 256;
    OrXorBound(a, b, 8);
    XorBit(a, b, i);
  }

  /** XOR with the same operand twice gives back the first operand. */
  lemma XorSelfInverse(a: int, b: int)
    requires IsByte(a) && IsByte(b)
    ensures Compute(XOR, Compute(XOR, a, b), b) == a
  {
    var x := Compute(XOR, a, b);
    var y := Compute(XOR, x, b);
    forall i | 0 <= i < 8
      ensures Bit(y, i) == Bit(a, i)
    {
      XorBits(a, b, i);
      XorBits(x, b, i);
    }
    assert Pow2(8) == 256;
    BitsDetermine(y, a, 8);
  }

  /** q and r are the quotient and remainder of dividing a by b. */
  predicate QuotientRemainder(a: int, b: int, q: int, r: int) {
    a == b * q + r && 0 <= r < b
  }

  /** DIV and MOD are quotient and remainder: a == b * (a DIV b) + a MOD b, with a MOD b < b. */
  lemma DivModLaw(a: int, b: int)
    requires IsByte(a) && IsByte(b) && b != 0
    ensures QuotientRemainder(a, b, Compute(DIV, a, b), Compute(MOD, a, b))
  {
    assert QuotientRemainder(a, b, a / b, a % b);
    RawQuotient(a, b);
    RawStaysInByte(DIV, a, b);
    RawStaysInByte(MOD, a, b);
  }

  /** DIV and MOD before masking are Python's `//` and `%` on naturals. */
  lemma RawQuotient(a: nat, b: nat)
    requires IsByte(a) && IsByte(b) && b != 0
    ensures Raw(DIV, a, b) == a / b && Raw(MOD, a, b) == a % b
  {
  }

  /** The quotient of a natural number by a positive one is at most the dividend. */
  lemma QuotientBelow(a: nat, b: nat)
    requires b != 0
    ensures a / b <= a
  {
    var q := a / b;
    assert a == b * q + a % b;
    MulAtLeast(q, b);
  }

  /** MUL is the product modulo 256: doubling is the same as shifting left by one. */
  lemma MulByTwoIsShiftLeft(a: int)
    requires IsByte(a)
    ensures Compute(MUL, a, 2) == Compute(SHL, a, 1)
  {
  }

  /** MUL commutes and distributes over ADD, both modulo 256. */
  lemma MulLaws(a: int, b: int, c: int)
    requires IsByte(a) && IsByte(b) && IsByte(c)
    ensures Compute(MUL, a, b) == Compute(MUL, b, a)
    ensures Compute(MUL, a, Compute(ADD, b, c)) == Compute(ADD, Compute(MUL, a, b), Compute(MUL, a, c))
  {
    assert Compute(MUL, a, b) == (a * b) % 256 && Compute(MUL, b, a) == (b * a) % 256;
    var s := Compute(ADD, b, c);
    assert s == (b + c) % 256;
    assert Compute(MUL, a, s) == (a * s) % 256;
    var p, q := Compute(MUL, a, b), Compute(MUL, a, c);
    assert p == (a * b) % 256 && q == (a * c) % 256;
    assert Compute(ADD, p, q) == (p + q) % 256;
    ProductWrap(a, b, c);
  }

  /** Wrapping the sum before or after multiplying by a gives the same byte. */
  lemma ProductWrap(a: int, b: int, c: int)
    ensures (a * ((b + c) % 256)) % 256 == ((a * b) % 256 + (a * c) % 256) % 256
  {
    var ab, ac := a * b, a * c;
    var k := (b + c) / 256;
    var s := (b + c) % 256;
    assert s == b + c - 256 * k;
    var ak := a * k;
    assert a * s == ab + ac - 256 * ak by {
      assert a * s == a * (b + c - 256 * k);
      assert a * (b + c - 256 * k) == a * b + a * c - 256 * (a * k);
    }
    var t := ab + ac;
    DivUnique(a * s, 256, t / 256 - ak, t % 256);
    DivUnique(ab % 256 + ac % 256, 256, t / 256 - ab / 256 - ac / 256, t % 256);
  }

  /** SHL moves every bit up by b places, dropping those that pass bit 7. */
  lemma ShiftLeftLaw(a: int, b: int, i: nat)
    requires IsByte(a) && IsByte(b) && i < 8
    ensures Bit(Compute(SHL, a, b), i) <==> b <= i && Bit(a, i - b)
  {
    assert Pow2(8) == 256;
    MaskBit(Shl(a, b), 8, i);
    ShiftLeftBit(a, b, i);
  }

  /** SHR moves every bit of a down by b places, filling with zeros. */
  lemma ShiftRightLaw(a: int, b: int, i: nat)
    requires IsByte(a) && IsByte(b)
    ensures Bit(Compute(SHR, a, b), i) <==> Bit(a, i + b)
  {
    var q := Shr(a, b);
    RawShiftRight(a, b);
    assert Compute(SHR, a, b) == Mask(q) == q;
    ShiftRightBit(a, b, i);
  }

  /** SHR before masking is Python's `>>` on naturals. */
  lemma RawShiftRight(a: nat, b: nat)
    requires IsByte(a) && IsByte(b)
    ensures Raw(SHR, a, b) == Shr(a, b)
  {
  }

  /** DIV or MOD by a zero register is an error for every dividend. */
  lemma DivisionByZeroFails(a: int)
    requires IsByte(a)
    ensures Apply(DIV, a, 0) == Err(DivisionByZero(DIV))
    ensures Apply(MOD, a, 0) == Err(DivisionByZero(MOD))
  {
  }

  // ---------------------------------------------------------------------
  // The ALU on the register file

  /** A register file: eight bytes. */
  predicate RegistersOk(regs: seq<int>) {
    |regs| == 8 && forall i :: 0 <= i < 8 ==> IsByte(regs[i])
  }

  predicate IsRegister(i: int) {
    0 <= i < 8
  }

  /** `alu(op, reg_a, reg_b)`: the registers and flags after the operation,
      or the error. DIV and MOD test the divisor `reg[reg_b]` before they
      touch `reg[reg_a]`; every other operation reads `reg[reg_a]` first. */
  function AluEffect(op: Instr, regs: seq<int>, fl: int, ra: int, rb: int): (r: Result<(seq<int>, int), Error>)
    requires RegistersOk(regs)
    ensures r.Err? <==>
      !IsAluOp(op) || !IsRegister(ra) || (UsesRegB(op) && !IsRegister(rb))
      || (UsesRegB(op) && !DivisorOk(op, regs[rb]))
    ensures r.Ok? ==> RegistersOk(r.value.0)
    ensures r.Ok? && FlagsWellFormed(fl) ==> FlagsWellFormed(r.value.1)
    ensures r.Ok? ==> forall i :: 0 <= i < 8 && i != ra ==> r.value.0[i] == regs[i]
    ensures r.Ok? && op == CMP ==> r.value.0 == regs && r.value.1 == CmpFlags(regs[ra], regs[rb])
    ensures r.Ok? && op != CMP ==> r.value.1 == fl
    ensures r.Ok? && op != CMP && UsesRegB(op) ==> r.value.0[ra] == Compute(op, regs[ra], regs[rb])
    ensures r.Ok? && !UsesRegB(op) ==> r.value.0[ra] == Compute(op, regs[ra], 0)
  {
    if !IsAluOp(op) then Err(UnsupportedAluOp(op))
    else if op in {DIV, MOD} && !IsRegister(rb) then Err(InvalidRegister(rb))
    else if op in {DIV, MOD} && regs[rb] == 0 then Err(DivisionByZero(op))
    else if !IsRegister(ra) then Err(InvalidRegister(ra))
    else if UsesRegB(op) && !IsRegister(rb) then Err(InvalidRegister(rb))
    else
      var b := if UsesRegB(op) then regs[rb] else 0;
      match Apply(op, regs[ra], b)
      case Err(e) => Err(e)
      case Ok(Value(v)) => Ok((regs[ra := v], fl))
      case Ok(Flags(f)) => Ok((regs, f))
  }

  /** Which error the ALU reports: UnsupportedAluOp for an operation outside
      the ALU; for DIV and MOD an invalid reg_b, then a zero divisor, then an
      invalid reg_a; for every other operation an invalid reg_a, then an
      invalid reg_b when the operation reads it. */
  lemma AluEffectErrors(op: Instr, regs: seq<int>, fl: int, ra: int, rb: int)
    requires RegistersOk(regs)
    ensures var r := AluEffect(op, regs, fl, ra, rb);
      (!IsAluOp(op) ==> r == Err(UnsupportedAluOp(op)))
      && (op in {DIV, MOD} ==>
        (!IsRegister(rb) ==> r == Err(InvalidRegister(rb)))
        && (IsRegister(rb) && regs[rb] == 0 ==> r == Err(DivisionByZero(op)))
        && (IsRegister(rb) && regs[rb] != 0 && !IsRegister(ra) ==> r == Err(InvalidRegister(ra))))
      && (IsAluOp(op) && op !in {DIV, MOD} ==>
        (!IsRegister(ra) ==> r == Err(InvalidRegister(ra)))
        && (IsRegister(ra) && UsesRegB(op) && !IsRegister(rb) ==> r == Err(InvalidRegister(rb))))
  {
  }

  /** The register file after a value operation the ALU accepts. */
  lemma AluEffectOfValueOp(op: Instr, regs: seq<int>, fl: int, ra: int, rb: int)
    requires RegistersOk(regs) && IsValueOp(op) && IsRegister(ra)
    requires UsesRegB(op) ==> IsRegister(rb)
    requires DivisorOk(op, if UsesRegB(op) then regs[rb] else 0)
    ensures AluEffect(op, regs, fl, ra, rb)
      == Ok((regs[ra := Compute(op, regs[ra], if UsesRegB(op) then regs[rb] else 0)], fl))
  {
  }

  // ---------------------------------------------------------------------
  // Defects of the prototype, kept for the record

  /** SHR as the prototype writes it, `reg[reg_b] >> reg[reg_b]`: the first
      operand never reaches the result. */
  function ShrAsWritten(a: int, b: int): (v: int)
    requires IsByte(a) && IsByte(b)
    ensures IsByte(v)
  {
    Mask(Shr(b, b))
  }

  /** Shifting 8 right by 1 should give 4; the prototype gives 0. */
  lemma ShrAsWrittenLosesOperand()
    ensures ShrAsWritten(8, 1) == 0
    ensures Compute(SHR, 8, 1) == 4
    ensures forall a :: IsByte(a) ==> ShrAsWritten(a, 1) == 0
  {
  }

  /** The prototype's `alu` ends by masking `reg[reg_b]` for every operation,
      so a one-operand INC, DEC or NOT still needs its second operand byte
      (the byte after the instruction) to name a register. The prototype has
      by then already updated and masked `reg[reg_a]`, so it fails with R0
      changed; this error result does not show that partial update. */
  function AluEffectAsWritten(op: Instr, regs: seq<int>, fl: int, ra: int, rb: int): (r: Result<(seq<int>, int), Error>)
    requires RegistersOk(regs)
    ensures IsAluOp(op) && IsRegister(ra) && !IsRegister(rb) ==> r == Err(InvalidRegister(rb))
    ensures IsRegister(rb) ==> r == AluEffect(op, regs, fl, ra, rb)
  {
    if IsAluOp(op) && IsRegister(ra) && !IsRegister(rb) then Err(InvalidRegister(rb))
    else AluEffect(op, regs, fl, ra, rb)
  }

  /** `INC R0` followed by an LDI (opcode 0x82) fails in the prototype, because
      0x82 is taken as reg_b; the corrected ALU increments R0. */
  lemma IncBeforeLdiFaultsAsWritten(regs: seq<int>, fl: int)
    requires RegistersOk(regs)
    ensures AluEffectAsWritten(INC, regs, fl, 0, 0x82) == Err(InvalidRegister(0x82))
    ensures AluEffect(INC, regs, fl, 0, 0x82) == Ok((regs[0 := Compute(INC, regs[0], 0)], fl))
  {
  }

  /** In the corrected ALU the one-operand operations do not depend on reg_b at all. */
  lemma OneOperandIgnoresRegB(op: Instr, regs: seq<int>, fl: int, ra: int, rb1: int, rb2: int)
    requires RegistersOk(regs) && op in {INC, DEC, NOT}
    ensures AluEffect(op, regs, fl, ra, rb1) == AluEffect(op, regs, fl, ra, rb2)
  {
  }
}
