/** Classic BPF instructions, their numeric opcodes and the builders the filter compiler uses. */
module Bpf {
  import opened Bits

  datatype Instruction = Instruction(code: bv16, jt: u8, jf: u8, k: u32)

  // Instruction classes
  const BPF_LD: bv16 := 0x00
  const BPF_LDX: bv16 := 0x01
  const BPF_ST: bv16 := 0x02
  const BPF_STX: bv16 := 0x03
  const BPF_ALU: bv16 := 0x04
  const BPF_JMP: bv16 := 0x05
  const BPF_RET: bv16 := 0x06
  const BPF_MISC: bv16 := 0x07

  // Operand sizes
  const BPF_W: bv16 := 0x00
  const BPF_H: bv16 := 0x08
  const BPF_B: bv16 := 0x10

  // Addressing modes
  const BPF_IMM: bv16 := 0x00
  const BPF_ABS: bv16 := 0x20
  const BPF_IND: bv16 := 0x40
  const BPF_MEM: bv16 := 0x60
  const BPF_LEN: bv16 := 0x80
  const BPF_MSH: bv16 := 0xa0

  // Arithmetic operations
  const BPF_ADD: bv16 := 0x00
  const BPF_SUB: bv16 := 0x10
  const BPF_MUL: bv16 := 0x20
  const BPF_DIV: bv16 := 0x30
  const BPF_OR: bv16 := 0x40
  const BPF_AND: bv16 := 0x50
  const BPF_LSH: bv16 := 0x60
  const BPF_RSH: bv16 := 0x70
  const BPF_NEG: bv16 := 0x80
  const BPF_MOD: bv16 := 0x90
  const BPF_XOR: bv16 := 0xa0

  // Jumps
  const BPF_JA: bv16 := 0x00
  const BPF_JEQ: bv16 := 0x10
  const BPF_JGT: bv16 := 0x20
  const BPF_JGE: bv16 := 0x30
  const BPF_JSET: bv16 := 0x40

  // Sources
  const BPF_K: bv16 := 0x00
  const BPF_X: bv16 := 0x08

  // Register transfers
  const BPF_TAX: bv16 := 0x00
  const BPF_TXA: bv16 := 0x80

  const CBPF_ACCEPT: u32 := 0xFFFF
  const CBPF_REJECT: u32 := 0

  function LdAbsH(k: u32): Instruction { Instruction(BPF_LD | BPF_H | BPF_ABS, 0, 0, k) }

  function LdAbsB(k: u32): Instruction { Instruction(BPF_LD | BPF_B | BPF_ABS, 0, 0, k) }

  function LdAbsW(k: u32): Instruction { Instruction(BPF_LD | BPF_W | BPF_ABS, 0, 0, k) }

  function LdIndH(k: u32): Instruction { Instruction(BPF_LD | BPF_H | BPF_IND, 0, 0, k) }

  function LdxMshB(k: u32): Instruction { Instruction(BPF_LDX | BPF_B | BPF_MSH, 0, 0, k) }

  function Jeq(k: u32): Instruction { Instruction(BPF_JMP | BPF_JEQ | BPF_K, 0, 0, k) }

  function Jgt(k: u32): Instruction { Instruction(BPF_JMP | BPF_JGT | BPF_K, 0, 0, k) }

  function Jge(k: u32): Instruction { Instruction(BPF_JMP | BPF_JGE | BPF_K, 0, 0, k) }

  function RetK(k: u32): Instruction { Instruction(BPF_RET | BPF_K, 0, 0, k) }

  /** The two instructions the compiler assembles from opcode bits without a builder. */
  function AndK(mask: u32): Instruction { Instruction(BPF_ALU | BPF_AND | BPF_K, 0, 0, mask) }

  function LdLen(): Instruction { Instruction(BPF_LD | BPF_LEN | BPF_W, 0, 0, 0) }

  /** The opcodes of all instructions the compiler emits, as numbers. */
  lemma BuildersAreLiteral(k: u32)
    ensures LdAbsW(k) == Instruction(0x20, 0, 0, k) && LdAbsH(k) == Instruction(0x28, 0, 0, k)
    ensures LdAbsB(k) == Instruction(0x30, 0, 0, k) && LdIndH(k) == Instruction(0x48, 0, 0, k)
    ensures LdxMshB(k) == Instruction(0xb1, 0, 0, k) && AndK(k) == Instruction(0x54, 0, 0, k)
    ensures LdLen() == Instruction(0x80, 0, 0, 0) && RetK(k) == Instruction(0x06, 0, 0, k)
    ensures Jeq(k) == Instruction(0x15, 0, 0, k) && Jgt(k) == Instruction(0x25, 0, 0, k)
    ensures Jge(k) == Instruction(0x35, 0, 0, k)
    ensures CBPF_ACCEPT == 0xFFFF && CBPF_REJECT == 0
  {
  }
}
