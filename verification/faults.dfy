/** The error conditions of the machine. The prototype meets each of them by
    raising an exception or by printing a message and exiting the process;
    here each one is a value the caller receives. */
module Faults {
  import opened Opcodes

  datatype Error =
    | OutOfBounds(address: int)      // a RAM address outside 0..255
    | InvalidRegister(index: int)    // a register number outside 0..7
    | DivisionByZero(op: Instr)      // DIV or MOD with a zero divisor
    | UnsupportedAluOp(op: Instr)    // an operation the ALU does not carry out
    | UnknownOpcode(opcode: int)     // a byte that is not in the opcode table
}
