/** The classic BPF virtual machine: decoding, a pure small-step semantics and the interpreter loop. */
module Vm {
  import opened Common
  import opened Bits
  import opened Bpf

  type Packet = seq<u8>

  // ----- big-endian packet access; anything not wholly inside the packet reads as zero -----

  function Read8(packet: Packet, offset: nat): u8 {
    if offset < |packet| then packet[offset] else 0
  }

  function Read16(packet: Packet, offset: nat): u16 {
    if offset + 2 > |packet| then 0 else BigEndian16(packet[offset], packet[offset + 1])
  }

  function Read32(packet: Packet, offset: nat): u32 {
    if offset + 4 > |packet| then 0
    else BigEndian32(packet[offset], packet[offset + 1], packet[offset + 2], packet[offset + 3])
  }

  // ----- decoded operations -----

  datatype Width = Byte | Half | Word
  datatype Test = Equal | Greater | GreaterOrEqual | AnyBit
  datatype AluOp = Add | Sub | Mul | Div | BitOr | BitAnd | ShiftLeft | ShiftRight | Mod | BitXor | Negate

  datatype Op =
    | LoadImm(k: u32)
    | LoadAbs(width: Width, k: u32)
    | LoadInd(width: Width, k: u32)
    | LoadMem(k: u32)
    | LoadLen
    | LoadXImm(k: u32)
    | LoadXHeader(k: u32)
    | LoadXMem(k: u32)
    | Store(k: u32)
    | StoreX(k: u32)
    | Alu(alu: AluOp, k: u32)
    | JumpAlways(k: u32)
    | JumpIf(test: Test, k: u32, jt: u8, jf: u8)
    | CopyAToX
    | CopyXToA
    | ReturnK(k: u32)
    | ReturnX
    | Invalid

  function Decode(inst: Instruction): Op {
    var cls := inst.code & 0x07;
    if cls == BPF_LD then DecodeLoad(inst)
    else if cls == BPF_LDX then DecodeLoadX(inst)
    else if cls == BPF_ST then Store(inst.k)
    else if cls == BPF_STX then StoreX(inst.k)
    else if cls == BPF_ALU then DecodeAlu(inst)
    else if cls == BPF_JMP then DecodeJump(inst)
    else if cls == BPF_MISC then
      var op := inst.code & 0xf0;
      if op == BPF_TAX then CopyAToX else if op == BPF_TXA then CopyXToA else Invalid
    else if inst.code & 0x08 == BPF_K then ReturnK(inst.k)
    else ReturnX
  }

  function DecodeLoad(inst: Instruction): Op {
    var size, mode := inst.code & 0x18, inst.code & 0xE0;
    if mode == BPF_IMM then LoadImm(inst.k)
    else if mode == BPF_ABS then
      if size == BPF_B then LoadAbs(Byte, inst.k)
      else if size == BPF_H then LoadAbs(Half, inst.k)
      else if size == BPF_W then LoadAbs(Word, inst.k)
      else Invalid
    else if mode == BPF_IND then
      if size == BPF_B then LoadInd(Byte, inst.k)
      else if size == BPF_H then LoadInd(Half, inst.k)
      else if size == BPF_W then LoadInd(Word, inst.k)
      else Invalid
    else if mode == BPF_MEM then LoadMem(inst.k)
    else if mode == BPF_LEN then LoadLen
    else Invalid
  }

  function DecodeLoadX(inst: Instruction): Op {
    var mode := inst.code & 0xE0;
    if mode == BPF_IMM then LoadXImm(inst.k)
    else if mode == BPF_MSH then LoadXHeader(inst.k)
    else if mode == BPF_MEM then LoadXMem(inst.k)
    else Invalid
  }

  function DecodeAlu(inst: Instruction): Op {
    var op := inst.code & 0xf0;
    if op == BPF_ADD then Alu(Add, inst.k)
    else if op == BPF_SUB then Alu(Sub, inst.k)
    else if op == BPF_MUL then Alu(Mul, inst.k)
    else if op == BPF_DIV then Alu(Div, inst.k)
    else if op == BPF_OR then Alu(BitOr, inst.k)
    else if op == BPF_AND then Alu(BitAnd, inst.k)
    else if op == BPF_LSH then Alu(ShiftLeft, inst.k)
    else if op == BPF_RSH then Alu(ShiftRight, inst.k)
    else if op == BPF_MOD then Alu(Mod, inst.k)
    else if op == BPF_XOR then Alu(BitXor, inst.k)
    else if op == BPF_NEG then Alu(Negate, inst.k)
    else Invalid
  }

  function DecodeJump(inst: Instruction): Op {
    var op := inst.code & 0xf0;
    if op == BPF_JA then JumpAlways(inst.k)
    else if op == BPF_JEQ then JumpIf(Equal, inst.k, inst.jt, inst.jf)
    else if op == BPF_JGT then JumpIf(Greater, inst.k, inst.jt, inst.jf)
    else if op == BPF_JGE then JumpIf(GreaterOrEqual, inst.k, inst.jt, inst.jf)
    else if op == BPF_JSET then JumpIf(AnyBit, inst.k, inst.jt, inst.jf)
    else Invalid
  }

  /** Every instruction the compiler builds decodes to the operation its builder is named for. */
  lemma BuildersDecode(k: u32, jt: u8, jf: u8)
    ensures Decode(LdAbsB(k)) == LoadAbs(Byte, k)
    ensures Decode(LdAbsH(k)) == LoadAbs(Half, k)
    ensures Decode(LdAbsW(k)) == LoadAbs(Word, k)
    ensures Decode(LdIndH(k)) == LoadInd(Half, k)
    ensures Decode(LdxMshB(k)) == LoadXHeader(k)
    ensures Decode(AndK(k)) == Alu(BitAnd, k)
    ensures Decode(LdLen()) == LoadLen
    ensures Decode(RetK(k)) == ReturnK(k)
    ensures Decode(Jeq(k).(jt := jt, jf := jf)) == JumpIf(Equal, k, jt, jf)
    ensures Decode(Jgt(k).(jt := jt, jf := jf)) == JumpIf(Greater, k, jt, jf)
    ensures Decode(Jge(k).(jt := jt, jf := jf)) == JumpIf(GreaterOrEqual, k, jt, jf)
    ensures Decode(Instruction(BPF_JMP | BPF_JSET | BPF_K, jt, jf, k)) == JumpIf(AnyBit, k, jt, jf)
  {
  }

  /** Loads and stores by the numbers of their opcodes. */
  lemma LoadOpcodes(k: u32, jt: u8, jf: u8)
    ensures Decode(Instruction(0x00, jt, jf, k)) == LoadImm(k)
    ensures Decode(Instruction(0x20, jt, jf, k)) == LoadAbs(Word, k)
    ensures Decode(Instruction(0x28, jt, jf, k)) == LoadAbs(Half, k)
    ensures Decode(Instruction(0x30, jt, jf, k)) == LoadAbs(Byte, k)
    ensures Decode(Instruction(0x40, jt, jf, k)) == LoadInd(Word, k)
    ensures Decode(Instruction(0x48, jt, jf, k)) == LoadInd(Half, k)
    ensures Decode(Instruction(0x50, jt, jf, k)) == LoadInd(Byte, k)
    ensures Decode(Instruction(0x60, jt, jf, k)) == LoadMem(k)
    ensures Decode(Instruction(0x80, jt, jf, k)) == LoadLen
    ensures Decode(Instruction(0x01, jt, jf, k)) == LoadXImm(k)
    ensures Decode(Instruction(0x61, jt, jf, k)) == LoadXMem(k)
    ensures Decode(Instruction(0xb1, jt, jf, k)) == LoadXHeader(k)
    ensures Decode(Instruction(0x02, jt, jf, k)) == Store(k)
    ensures Decode(Instruction(0x03, jt, jf, k)) == StoreX(k)
  {
  }

  /** Arithmetic by the numbers of its opcodes. */
  lemma AluOpcodes(k: u32, jt: u8, jf: u8)
    ensures Decode(Instruction(0x04, jt, jf, k)) == Alu(Add, k)
    ensures Decode(Instruction(0x14, jt, jf, k)) == Alu(Sub, k)
    ensures Decode(Instruction(0x24, jt, jf, k)) == Alu(Mul, k)
    ensures Decode(Instruction(0x34, jt, jf, k)) == Alu(Div, k)
    ensures Decode(Instruction(0x44, jt, jf, k)) == Alu(BitOr, k)
    ensures Decode(Instruction(0x54, jt, jf, k)) == Alu(BitAnd, k)
    ensures Decode(Instruction(0x64, jt, jf, k)) == Alu(ShiftLeft, k)
    ensures Decode(Instruction(0x74, jt, jf, k)) == Alu(ShiftRight, k)
    ensures Decode(Instruction(0x84, jt, jf, k)) == Alu(Negate, k)
    ensures Decode(Instruction(0x94, jt, jf, k)) == Alu(Mod, k)
    ensures Decode(Instruction(0xa4, jt, jf, k)) == Alu(BitXor, k)
  {
  }

  /** Jumps, returns and register transfers by the numbers of their opcodes. */
  lemma ControlOpcodes(k: u32, jt: u8, jf: u8)
    ensures Decode(Instruction(0x05, jt, jf, k)) == JumpAlways(k)
    ensures Decode(Instruction(0x15, jt, jf, k)) == JumpIf(Equal, k, jt, jf)
    ensures Decode(Instruction(0x25, jt, jf, k)) == JumpIf(Greater, k, jt, jf)
    ensures Decode(Instruction(0x35, jt, jf, k)) == JumpIf(GreaterOrEqual, k, jt, jf)
    ensures Decode(Instruction(0x45, jt, jf, k)) == JumpIf(AnyBit, k, jt, jf)
    ensures Decode(Instruction(0x06, jt, jf, k)) == ReturnK(k)
    ensures Decode(Instruction(0x0e, jt, jf, k)) == ReturnX
    ensures Decode(Instruction(0x07, jt, jf, k)) == CopyAToX
    ensures Decode(Instruction(0x87, jt, jf, k)) == CopyXToA
  {
  }

  // ----- small-step semantics -----

  type Memory = m: seq<u32> | |m| == 16 witness seq(16, _ => 0)

  datatype State = State(pc: nat, a: u32, x: u32, mem: Memory)

  datatype Outcome = Next(state: State) | Return(value: u32) | Fault

  const ZEROS: Memory := [0, 0, 0, 0, 0, 0, 0, 0, 0, 0, 0, 0, 0, 0, 0, 0]
  const START: State := State(0, 0, 0, ZEROS)

  function Load(packet: Packet, width: Width, offset: nat): u32 {
    match width
    case Byte => Read8(packet, offset)
    case Half => Read16(packet, offset)
    case Word => Read32(packet, offset)
  }

  /** There is no result of the division by zero that makes the machine give up. */
  function Arith(op: AluOp, a: u32, k: u32): Option<u32> {
    match op
    case Add => Some(WrappingAdd(a, k))
    case Sub => Some(WrappingSub(a, k))
    case Mul => Some(WrappingMul(a, k))
    case Div => if k == 0 then None else Some(Quotient(a, k))
    case BitOr => Some(Or32(a, k))
    case BitAnd => Some(And(a, k))
    case ShiftLeft => Some(WrappingShl(a, k))
    case ShiftRight => Some(WrappingShr(a, k))
    case Mod => if k == 0 then None else Some(Remainder(a, k))
    case BitXor => Some(Xor32(a, k))
    case Negate => Some(WrappingSub(0, a))
  }

  /** The arithmetic, without the operations it is built from: results modulo 2^32, quotient and remainder. */
  lemma ArithModular(a: u32, k: u32)
    ensures var r := Arith(Add, a, k);
            r.Some? && (r.value == (a as int) + k || r.value == (a as int) + k - 0x1_0000_0000)
    ensures var r := Arith(Sub, a, k);
            r.Some? && (r.value == (a as int) - k || r.value == (a as int) - k + 0x1_0000_0000)
    ensures var r := Arith(Negate, a, k); r.Some? && (r.value == -(a as int) || r.value == 0x1_0000_0000 - a)
    ensures var r := Arith(Mul, a, k); r.Some? && ((a as int) * k - r.value) % 0x1_0000_0000 == 0
    ensures Arith(Div, a, 0) == None && Arith(Mod, a, 0) == None
    ensures k > 0 ==>
              var q, r := Arith(Div, a, k), Arith(Mod, a, k);
              q.Some? && r.Some? && 0 <= r.value < k && (a as int) == (q.value as int) * k + r.value
  {
    hide Quotient, Remainder, WrappingMul, And, Or, Xor, Pow2, Or32, Xor32, WrappingShl, WrappingShr;
    ModularProduct(a, k);
    if k > 0 { QuotientAndRemainder(a, k); }
  }

  /** Each of the 32 bits of the results of the bitwise operations and the shifts. */
  lemma ArithBitwise(a: u32, k: u32, i: nat)
    requires i < 32
    ensures var r := Arith(BitAnd, a, k); r.Some? && (Bit(r.value, i) == 1 <==> Bit(a, i) == 1 && Bit(k, i) == 1)
    ensures var r := Arith(BitOr, a, k); r.Some? && (Bit(r.value, i) == 1 <==> Bit(a, i) == 1 || Bit(k, i) == 1)
    ensures var r := Arith(BitXor, a, k); r.Some? && (Bit(r.value, i) == 1 <==> Bit(a, i) != Bit(k, i))
    ensures var r := Arith(ShiftLeft, a, k);
            r.Some? && Bit(r.value, i) == if i < k % 32 then 0 else Bit(a, i - k % 32)
    ensures var r := Arith(ShiftRight, a, k);
            r.Some? && Bit(r.value, i) == if i + k % 32 < 32 then Bit(a, i + k % 32) else 0
  {
    hide And, Or, Xor, Pow2, Bit, WrappingShl, WrappingShr;
    AndIsBitwise(a, k, i);
    OrXorAreBitwise(a, k, i);
    ShiftsMoveBits(a, k, i);
  }

  predicate Holds(test: Test, a: u32, k: u32) {
    match test
    case Equal => a == k
    case Greater => a > k
    case GreaterOrEqual => a >= k
    case AnyBit => And(a, k) != 0
  }

  /** The effect of one decoded operation; `s.pc` is the index of the instruction itself. */
  function Perform(op: Op, packet: Packet, s: State): Outcome {
    var pc := s.pc + 1;
    match op
    case LoadImm(k) => Next(s.(pc := pc, a := k))
    case LoadAbs(w, k) => Next(s.(pc := pc, a := Load(packet, w, k)))
    case LoadInd(w, k) => Next(s.(pc := pc, a := Load(packet, w, s.x + k)))
    case LoadMem(k) => Next(s.(pc := pc, a := s.mem[k % 16]))
    case LoadLen => Next(s.(pc := pc, a := |packet| % 0x1_0000_0000))
    case LoadXImm(k) => Next(s.(pc := pc, x := k))
    case LoadXHeader(k) => Next(s.(pc := pc, x := And(Read8(packet, k), 0x0f) * 4))
    case LoadXMem(k) => Next(s.(pc := pc, x := s.mem[k % 16]))
    case Store(k) => Next(s.(pc := pc, mem := s.mem[k % 16 := s.a]))
    case StoreX(k) => Next(s.(pc := pc, mem := s.mem[k % 16 := s.x]))
    case Alu(f, k) => var r := Arith(f, s.a, k); if r.None? then Fault else Next(s.(pc := pc, a := r.value))
    case JumpAlways(k) => Next(s.(pc := pc + k))
    case JumpIf(t, k, jt, jf) => Next(s.(pc := pc + if Holds(t, s.a, k) then jt else jf))
    case CopyAToX => Next(s.(pc := pc, x := s.a))
    case CopyXToA => Next(s.(pc := pc, a := s.x))
    case ReturnK(k) => Return(k)
    case ReturnX => Return(s.x)
    case Invalid => Fault
  }

  function Step(program: seq<Instruction>, packet: Packet, s: State): Outcome
    requires s.pc < |program|
  {
    Perform(Decode(program[s.pc]), packet, s)
  }

  /** No instruction jumps backwards or stays where it is. */
  lemma StepAdvances(program: seq<Instruction>, packet: Packet, s: State)
    requires s.pc < |program|
    ensures Step(program, packet, s).Next? ==> Step(program, packet, s).state.pc > s.pc
  {
  }

  /** How a whole execution ends: at a return instruction, at an instruction that cannot be executed,
      or by running past the last instruction. */
  datatype Exit = Returned(at: nat, value: u32) | Stuck(at: nat) | RanOff

  function Run(program: seq<Instruction>, packet: Packet, s: State): Exit
    decreases |program| - s.pc
  {
    if s.pc >= |program| then RanOff
    else
      match Step(program, packet, s)
      case Next(s') => StepAdvances(program, packet, s); Run(program, packet, s')
      case Return(v) => Returned(s.pc, v)
      case Fault => Stuck(s.pc)
  }

  predicate Verdict(e: Exit) {
    e.Returned? && e.value != 0
  }

  /** The instructions executed, in order. */
  function Trace(program: seq<Instruction>, packet: Packet, s: State): (t: seq<nat>)
    ensures forall i :: 0 <= i < |t| ==> s.pc <= t[i] < |program|
    ensures forall i, j :: 0 <= i < j < |t| ==> t[i] < t[j]
    ensures |t| + s.pc <= if s.pc < |program| then |program| else s.pc
    decreases |program| - s.pc
  {
    if s.pc >= |program| then []
    else
      match Step(program, packet, s)
      case Next(s') => StepAdvances(program, packet, s); [s.pc] + Trace(program, packet, s')
      case Return(_) => [s.pc]
      case Fault => [s.pc]
  }

  // ----- the interpreter loop -----

  /** The `BPF_LD` arm; `s` is the machine state the instruction is executed in. */
  method ExecLoad(inst: Instruction, packet: Packet, x: u32, mem: array<u32>, ghost s: State) returns (a: u32, ok: bool)
    requires inst.code & 0x07 == BPF_LD
    requires mem[..] == s.mem && x == s.x
    ensures Perform(Decode(inst), packet, s) == if ok then Next(s.(pc := s.pc + 1, a := a)) else Fault
  {
    var size := inst.code & 0x18;
    var mode := inst.code & 0xE0;
    a, ok := 0, true;
    if mode == BPF_IMM {
      a := inst.k;
    } else if mode == BPF_ABS {
      if size == BPF_B { a := Read8(packet, inst.k); }
      else if size == BPF_H { a := Read16(packet, inst.k); }
      else if size == BPF_W { a := Read32(packet, inst.k); }
      else { ok := false; }
    } else if mode == BPF_IND {
      var off: nat := (x as int) + inst.k;
      if size == BPF_B { a := Read8(packet, off); }
      else if size == BPF_H { a := Read16(packet, off); }
      else if size == BPF_W { a := Read32(packet, off); }
      else { ok := false; }
    } else if mode == BPF_MEM {
      a := mem[inst.k % 16];
    } else if mode == BPF_LEN {
      a := |packet| % 0x1_0000_0000;
    } else {
      ok := false;
    }
  }

  /** The `BPF_LDX` arm. */
  method ExecLoadX(inst: Instruction, packet: Packet, mem: array<u32>, ghost s: State) returns (x: u32, ok: bool)
    requires inst.code & 0x07 == BPF_LDX
    requires mem[..] == s.mem
    ensures Perform(Decode(inst), packet, s) == if ok then Next(s.(pc := s.pc + 1, x := x)) else Fault
  {
    var mode := inst.code & 0xE0;
    x, ok := 0, true;
    if mode == BPF_IMM { x := inst.k; }
    else if mode == BPF_MSH { x := And(Read8(packet, inst.k), 0x0f) * 4; }
    else if mode == BPF_MEM { x := mem[inst.k % 16]; }
    else { ok := false; }
  }

  /** The `BPF_ALU` arm. */
  method ExecAlu(inst: Instruction, packet: Packet, acc: u32, ghost s: State) returns (a: u32, ok: bool)
    requires inst.code & 0x07 == BPF_ALU && acc == s.a
    ensures Perform(Decode(inst), packet, s) == if ok then Next(s.(pc := s.pc + 1, a := a)) else Fault
  {
    var op := inst.code & 0xf0;
    a, ok := 0, true;
    if op == BPF_ADD { a := WrappingAdd(acc, inst.k); }
    else if op == BPF_SUB { a := WrappingSub(acc, inst.k); }
    else if op == BPF_MUL { a := WrappingMul(acc, inst.k); }
    else if op == BPF_DIV { if inst.k == 0 { ok := false; } else { a := Quotient(acc, inst.k); } }
    else if op == BPF_OR { a := Or32(acc, inst.k); }
    else if op == BPF_AND { a := And(acc, inst.k); }
    else if op == BPF_LSH { a := WrappingShl(acc, inst.k); }
    else if op == BPF_RSH { a := WrappingShr(acc, inst.k); }
    else if op == BPF_MOD { if inst.k == 0 { ok := false; } else { a := Remainder(acc, inst.k); } }
    else if op == BPF_XOR { a := Xor32(acc, inst.k); }
    else if op == BPF_NEG { a := WrappingSub(0, acc); }
    else { ok := false; }
  }

  /** The `BPF_JMP` arm; `pc` is already past the instruction. */
  method ExecJump(inst: Instruction, packet: Packet, pc: nat, a: u32, ghost s: State) returns (target: nat, ok: bool)
    requires inst.code & 0x07 == BPF_JMP && a == s.a && pc == s.pc + 1
    ensures Perform(Decode(inst), packet, s) == if ok then Next(s.(pc := target)) else Fault
  {
    var op := inst.code & 0xf0;
    target, ok := pc, true;
    if op == BPF_JA {
      target := pc + inst.k;
    } else {
      var cond := false;
      if op == BPF_JEQ { cond := a == inst.k; }
      else if op == BPF_JGT { cond := a > inst.k; }
      else if op == BPF_JGE { cond := a >= inst.k; }
      else if op == BPF_JSET { cond := And(a, inst.k) != 0; }
      else { return pc, false; }
      target := pc + if cond then inst.jt else inst.jf;
    }
  }

  /** One iteration of the interpreter. `done` says that the machine stops, with verdict `matched`. */
  method ExecOne(inst: Instruction, packet: Packet, s: State, mem: array<u32>)
    returns (pc: nat, a: u32, x: u32, done: bool, matched: bool)
    requires mem[..] == s.mem
    modifies mem
    ensures done ==> !Perform(Decode(inst), packet, s).Next?
    ensures done ==> var o := Perform(Decode(inst), packet, s); matched == (o.Return? && o.value != 0)
    ensures !done ==> Perform(Decode(inst), packet, s) == Next(State(pc, a, x, mem[..]))
  {
    pc, a, x, done, matched := s.pc + 1, s.a, s.x, false, false;
    var ok := true;
    var cls := inst.code & 0x07;
    if cls == BPF_LD {
      a, ok := ExecLoad(inst, packet, x, mem, s);
    } else if cls == BPF_LDX {
      x, ok := ExecLoadX(inst, packet, mem, s);
    } else if cls == BPF_ST {
      mem[inst.k % 16] := a;
      assert mem[..] == s.mem[inst.k % 16 := a];
    } else if cls == BPF_STX {
      mem[inst.k % 16] := x;
      assert mem[..] == s.mem[inst.k % 16 := x];
    } else if cls == BPF_ALU {
      a, ok := ExecAlu(inst, packet, a, s);
    } else if cls == BPF_JMP {
      pc, ok := ExecJump(inst, packet, pc, a, s);
    } else if cls == BPF_MISC {
      var op := inst.code & 0xf0;
      if op == BPF_TAX { x := a; }
      else if op == BPF_TXA { a := x; }
      else { ok := false; }
    } else {
      var src := inst.code & 0x08;
      var val := if src == BPF_K then inst.k else x;
      done, matched := true, val != 0;
    }
    done := done || !ok;
  }

  /** The interpreter; `visited` are the instructions executed, in order. */
  method Exec(program: seq<Instruction>, packet: Packet) returns (matched: bool, ghost visited: seq<nat>)
    ensures matched == Verdict(Run(program, packet, START))
    ensures visited == Trace(program, packet, START)
    ensures |visited| <= |program|
  {
    var pc: nat, a: u32, x: u32 := 0, 0, 0;
    var mem := new u32[16](_ => 0);
    visited := [];
    assert mem[..] == ZEROS;
    while pc < |program|
      invariant Run(program, packet, State(pc, a, x, mem[..])) == Run(program, packet, START)
      invariant visited + Trace(program, packet, State(pc, a, x, mem[..])) == Trace(program, packet, START)
      decreases |program| - pc
    {
      var s := State(pc, a, x, mem[..]);
      StepAdvances(program, packet, s);
      visited := visited + [pc];
      var done;
      pc, a, x, done, matched := ExecOne(program[pc], packet, s, mem);
      if done {
        return;
      }
    }
    matched := false;
  }
}
