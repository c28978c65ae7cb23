/** Instruction-set constants of the bit-packed virtual machine: opcodes, operand
    modes, register indices and the name tables the disassembler prints. */
module Isa {

  /** One RAM cell, one register or one loader field: a C `unsigned char`. */
  type byte = x: int | 0 <= x < 256

  /** Storing an int into an unsigned char keeps it modulo 256. */
  function Wrap(x: int): (b: byte)
    ensures (b - x) % 256 == 0
  {
    x % 256
  }

  /** 2 to the power n. */
  function Pow2(n: nat): (r: nat)
    ensures r >= 1
  {
    if n == 0 then 1 else 2 * Pow2(n - 1)
  }

  // Size of the address space and of its fixed regions.
  const RAM_SIZE: nat := 256
  const TABLE_SIZE: nat := 8    // function table: RAM[0..7]
  const STACK_BASE: byte := 8   // SS: first stack cell

  // Opcodes (a 3-bit tag).
  const MOV: byte := 0
  const CAL: byte := 1
  const RET: byte := 2
  const REF: byte := 3
  const ADD: byte := 4
  const PRINT: byte := 5
  const NOT: byte := 6
  const EQU: byte := 7

  // Operand modes.
  const CNST: byte := 0
  const RGSTR: byte := 1
  const SYMBL: byte := 2
  const PNTR: byte := 3

  // Register bank: 0..4 general purpose, then stack pointer, frame size, program counter.
  const REG_COUNT: nat := 8
  const SP: byte := 5
  const SZ: byte := 6
  const PC: byte := 7

  /** An entry of the function table that holds no function. */
  const NO_FUNCTION: byte := 0
  /** A slot of the resolver's seen-table that holds no symbol yet (1 << 6). */
  const NO_SYMBOL: byte := 64

  /** Number of operands of an opcode. */
  function Arity(op: byte): nat
  {
    if op == RET then 0
    else if op == CAL || op == PRINT || op == NOT || op == EQU then 1
    else 2
  }

  /** Bytes an instruction occupies in RAM: opcode, then a mode and a value per operand. */
  function Length(op: byte): nat
  {
    1 + 2 * Arity(op)
  }

  /** Mnemonics, indexed by opcode. */
  const Mnemonics: seq<string> := ["MOV  ", "CAL  ", "RET  ", "REF  ", "ADD  ", "PRINT", "NOT  ", "EQU  "]

  /** Mode keywords, indexed by mode. */
  const ModeNames: seq<string> := ["CNST  ", "RGSTR ", "SYMBL ", "PNTR  "]

  /** The letter a stack symbol id is printed as (32 ids; there is no 'I'). */
  const StackSymbols: seq<char> := [
    'A', 'B', 'C', 'D', 'E', 'F', 'G', 'H',
    'J', 'K', 'L', 'M', 'N', 'O', 'P', 'Q',
    'R', 'S', 'T', 'U', 'V', 'W', 'X', 'Y',
    'Z', 'a', 'b', 'c', 'd', 'e', 'f', 'g']

  /** A SYMBL or PNTR operand: one that names a stack slot. */
  predicate IsStackMode(m: byte)
  {
    m == SYMBL || m == PNTR
  }
}
