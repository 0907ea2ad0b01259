/** A machine that gives up on a load outside the packet, as against `Vm`, which reads zeros there. */
module Strict {
  import opened Bits
  import opened Bpf
  import opened FilterAst
  import opened Vm
  import opened Layout
  import opened Semantics
  import opened Correctness
  import opened Headers

  function StrictRun(program: seq<Instruction>, packet: Packet, s: State): Exit
    decreases |program| - s.pc
  {
    if s.pc >= |program| then RanOff
    else if !InRange(Decode(program[s.pc]), packet, s.x) then Stuck(s.pc)
    else
      match Step(program, packet, s)
      case Next(s') => StepAdvances(program, packet, s); StrictRun(program, packet, s')
      case Return(v) => Returned(s.pc, v)
      case Fault => Stuck(s.pc)
  }

  // ----- when the two machines agree, for arbitrary programs -----

  /** Every load executed from `s` on lies wholly inside the packet. */
  predicate LoadsInRange(program: seq<Instruction>, packet: Packet, s: State)
    decreases |program| - s.pc
  {
    if s.pc >= |program| then true
    else if !InRange(Decode(program[s.pc]), packet, s.x) then false
    else
      match Step(program, packet, s)
      case Next(s') => StepAdvances(program, packet, s); LoadsInRange(program, packet, s')
      case _ => true
  }

  predicate ExitsFrom(e: Exit, pc: nat) { e.RanOff? || e.at >= pc }

  lemma {:induction false} RunExitsAhead(program: seq<Instruction>, packet: Packet, s: State)
    ensures ExitsFrom(Run(program, packet, s), s.pc)
    decreases |program| - s.pc
  {
    hide Decode;
    if s.pc < |program| && Step(program, packet, s).Next? {
      StepAdvances(program, packet, s);
      RunExitsAhead(program, packet, Step(program, packet, s).state);
    }
  }

  /** The machines end alike exactly when every load executed is in range; otherwise the strict one rejects. */
  lemma {:induction false} StrictExactly(program: seq<Instruction>, packet: Packet, s: State)
    ensures StrictRun(program, packet, s) == Run(program, packet, s) <==> LoadsInRange(program, packet, s)
    ensures Verdict(StrictRun(program, packet, s)) <==>
            Verdict(Run(program, packet, s)) && LoadsInRange(program, packet, s)
    decreases |program| - s.pc
  {
    hide Decode, Perform;
    if s.pc < |program| {
      StepAdvances(program, packet, s);
      if !InRange(Decode(program[s.pc]), packet, s.x) {
        LoadsContinue(program, packet, s);
        RunExitsAhead(program, packet, Step(program, packet, s).state);
      } else if Step(program, packet, s).Next? {
        StrictExactly(program, packet, Step(program, packet, s).state);
      }
    }
  }

  /** No load stops the lenient machine. */
  lemma LoadsContinue(program: seq<Instruction>, packet: Packet, s: State)
    requires s.pc < |program| && !InRange(Decode(program[s.pc]), packet, s.x)
    ensures Step(program, packet, s).Next?
  {
    hide Decode;
  }

  // ----- compiled programs on packets of at least 78 bytes -----

  lemma {:induction false} HeadersInRange(program: seq<Instruction>, packet: Packet, s: State)
    requires HeaderProgram(program, true) && s.x <= 60 && |packet| >= HEADERS
    ensures LoadsInRange(program, packet, s)
    decreases |program| - s.pc
  {
    hide Decode, HeaderProgram, Perform;
    if s.pc < |program| {
      HeaderStep(program, packet, s, true);
      StepAdvances(program, packet, s);
      if Step(program, packet, s).Next? { HeadersInRange(program, packet, Step(program, packet, s).state); }
    }
  }

  lemma LensMonotone(program: seq<Instruction>, lens: bool)
    requires HeaderProgram(program, lens)
    ensures HeaderProgram(program, true)
  {
    forall i | 0 <= i < |program| ensures HeaderInst(program[i], true) {
      assert HeaderInst(program[i], lens);
    }
  }

  /** On a packet of at least 78 bytes both machines run a compiled program to the same exit. */
  lemma StrictAndLenientAgree(ast: Ast, packet: Packet)
    requires Encodable(Program(ast), 0) && |packet| >= HEADERS
    ensures StrictRun(EncodeAll(Program(ast), 0), packet, START) == Run(EncodeAll(Program(ast), 0), packet, START)
  {
    hide Program, HeaderProgram, StrictRun, Run, LoadsInRange;
    var program := EncodeAll(Program(ast), 0);
    ProgramHeader(ast);
    LensMonotone(program, HasLen(ast));
    HeadersInRange(program, packet, START);
    StrictExactly(program, packet, START);
  }

  /** The strict machine accepts exactly the packets that match and on which every load executed is in range. */
  lemma StrictProgramExactly(ast: Ast, packet: Packet)
    requires Encodable(Program(ast), 0)
    ensures var program := EncodeAll(Program(ast), 0);
            Verdict(StrictRun(program, packet, START)) <==> Matches(ast, packet) && LoadsInRange(program, packet, START)
  {
    hide Program, StrictRun, Run, LoadsInRange, Matches, EncodeAll, Encodable;
    StrictExactly(EncodeAll(Program(ast), 0), packet, START);
    ProgramCorrect(ast, packet);
  }

  // ----- 78 is the exact bound -----

  /** A filter that no packet cut off before its destination port fails in the lenient machine. */
  const NOT_DST_PORT_1: Ast := Not(Port(1, Dst))

  lemma WitnessMatches(n: nat)
    requires n < HEADERS
    ensures Matches(NOT_DST_PORT_1, LongHeaderPacket(n, 0))
  {
    LongHeaderFields(n, 0);
  }

  lemma WitnessEncodable()
    ensures Encodable(Program(NOT_DST_PORT_1), 0)
  {
    var c := Program(NOT_DST_PORT_1);
    assert |c| == 16;
    assert c[1] == Branch(Jeq(ETHERTYPE_IP), 8, 2) && c[9] == Branch(Jeq(IPPROTO_TCP), 11, 10);
    assert c[2] == Branch(Jeq(ETHERTYPE_IPV6), 3, 14) && c[3].Plain? && c[4] == Branch(Jeq(IPPROTO_TCP), 6, 5);
    assert c[5] == Branch(Jeq(IPPROTO_UDP), 6, 14) && c[6].Plain? && c[7] == Branch(Jeq(1), 15, 14);
    assert c[10] == Branch(Jeq(IPPROTO_UDP), 11, 14) && c[13] == Branch(Jeq(1), 15, 14);
  }

  lemma WitnessProgram()
    ensures Encodable(Program(NOT_DST_PORT_1), 0)
    ensures var program := EncodeAll(Program(NOT_DST_PORT_1), 0);
            |program| == 16 && program[0] == LdAbsH(12) && program[1] == Jeq(ETHERTYPE_IP).(jt := 6, jf := 0) &&
            program[8] == LdAbsB(23) && program[9] == Jeq(IPPROTO_TCP).(jt := 1, jf := 0) &&
            program[11] == LdxMshB(14) && program[12] == LdIndH(16)
  {
    var c := Program(NOT_DST_PORT_1);
    WitnessEncodable();
    assert |c| == 16;
    assert c[0] == Plain(LdAbsH(12)) && c[1] == Branch(Jeq(ETHERTYPE_IP), 8, 2) && c[8] == Plain(LdAbsB(23));
    assert c[9] == Branch(Jeq(IPPROTO_TCP), 11, 10) && c[11] == Plain(LdxMshB(14)) && c[12] == Plain(LdIndH(16));
    var program := EncodeAll(c, 0);
    assert program[0] == Encode(c[0], 0 + 0) && program[1] == Encode(c[1], 0 + 1) && program[8] == Encode(c[8], 0 + 8);
    assert program[9] == Encode(c[9], 0 + 9) && program[11] == Encode(c[11], 0 + 11) &&
           program[12] == Encode(c[12], 0 + 12);
  }

  lemma WitnessDecodes(program: seq<Instruction>)
    requires |program| == 16 && program[0] == LdAbsH(12) && program[1] == Jeq(ETHERTYPE_IP).(jt := 6, jf := 0)
    requires program[8] == LdAbsB(23) && program[9] == Jeq(IPPROTO_TCP).(jt := 1, jf := 0)
    requires program[11] == LdxMshB(14) && program[12] == LdIndH(16)
    ensures Decode(program[0]) == LoadAbs(Half, 12) && Decode(program[1]) == JumpIf(Equal, ETHERTYPE_IP, 6, 0)
    ensures Decode(program[8]) == LoadAbs(Byte, 23) && Decode(program[9]) == JumpIf(Equal, IPPROTO_TCP, 1, 0)
    ensures Decode(program[11]) == LoadXHeader(14) && Decode(program[12]) == LoadInd(Half, 16)
  {
    BuildersDecode(12, 0, 0);
    BuildersDecode(ETHERTYPE_IP, 6, 0);
    BuildersDecode(23, 0, 0);
    BuildersDecode(IPPROTO_TCP, 1, 0);
    BuildersDecode(14, 0, 0);
    BuildersDecode(16, 0, 0);
  }

  lemma StepInRange(program: seq<Instruction>, packet: Packet, s: State, s': State)
    requires s.pc < |program| && InRange(Decode(program[s.pc]), packet, s.x) && Step(program, packet, s) == Next(s')
    ensures LoadsInRange(program, packet, s) == LoadsInRange(program, packet, s')
  {
    StepAdvances(program, packet, s);
  }

  /** The run of the witness reaches a load that the packet is too short for: of the ethertype, of the
      protocol or of the destination port. */
  lemma WitnessLeavesPacket(program: seq<Instruction>, n: nat)
    requires n < HEADERS
    requires |program| == 16 && Decode(program[0]) == LoadAbs(Half, 12) &&
             Decode(program[1]) == JumpIf(Equal, ETHERTYPE_IP, 6, 0)
    requires Decode(program[8]) == LoadAbs(Byte, 23) && Decode(program[9]) == JumpIf(Equal, IPPROTO_TCP, 1, 0)
    requires Decode(program[11]) == LoadXHeader(14) && Decode(program[12]) == LoadInd(Half, 16)
    ensures !LoadsInRange(program, LongHeaderPacket(n, 0), START)
  {
    hide LoadsInRange, Read16, Read8, Bits.And, Decode, LongHeaderPacket;
    var p := LongHeaderPacket(n, 0);
    assert |p| == n by { LongHeaderLength(n); }
    LongHeaderFields(n, 0);
    if n < 14 {
      OutOfRange(program, p, START);
    } else {
      var s1 := START.(pc := 1, a := ETHERTYPE_IP);
      StepInRange(program, p, START, s1);
      StepInRange(program, p, s1, s1.(pc := 8));
      if n < 24 {
        OutOfRange(program, p, s1.(pc := 8));
      } else {
        LowMask(Read8(p, 14), 4);
        assert Pow2(4) == 16;
        var s9 := s1.(pc := 9, a := IPPROTO_TCP);
        StepInRange(program, p, s1.(pc := 8), s9);
        StepInRange(program, p, s9, s9.(pc := 11));
        StepInRange(program, p, s9.(pc := 11), s9.(pc := 12, x := 60));
        OutOfRange(program, p, s9.(pc := 12, x := 60));
      }
    }
  }

  lemma LongHeaderLength(n: nat)
    ensures |LongHeaderPacket(n, 0)| == n
  {
  }

  lemma OutOfRange(program: seq<Instruction>, packet: Packet, s: State)
    requires s.pc < |program| && !InRange(Decode(program[s.pc]), packet, s.x)
    ensures !LoadsInRange(program, packet, s)
  {
  }

  /** For every length below 78 bytes there is a packet on which the machines part, all for one filter. */
  lemma StrictBoundIsTight(n: nat)
    requires n < HEADERS
    ensures Encodable(Program(NOT_DST_PORT_1), 0)
    ensures var program, p := EncodeAll(Program(NOT_DST_PORT_1), 0), LongHeaderPacket(n, 0);
            |p| == n && Matches(NOT_DST_PORT_1, p) && Verdict(Run(program, p, START)) &&
            !Verdict(StrictRun(program, p, START))
  {
    hide Program, EncodeAll, Encodable, StrictRun, LoadsInRange, Run, Matches, LongHeaderPacket, Decode;
    WitnessProgram();
    var program := EncodeAll(Program(NOT_DST_PORT_1), 0);
    WitnessMatches(n);
    LongHeaderLength(n);
    WitnessDecodes(program);
    WitnessLeavesPacket(program, n);
    StrictProgramExactly(NOT_DST_PORT_1, LongHeaderPacket(n, 0));
    ProgramCorrect(NOT_DST_PORT_1, LongHeaderPacket(n, 0));
  }

  /** The filter cannot be assembled, or both machines give the same verdict. */
  predicate SameVerdict(ast: Ast, packet: Packet) {
    match Assemble(Program(ast))
    case Ok(program) => Verdict(StrictRun(program, packet, START)) == Verdict(Run(program, packet, START))
    case Err(_) => true
  }

  /** The machines are interchangeable for all filters and all packets of `n` bytes. */
  ghost predicate Interchangeable(n: nat) {
    forall ast: Ast, packet: Packet :: |packet| == n ==> SameVerdict(ast, packet)
  }

  /** They are so exactly from 78 bytes on. */
  lemma InterchangeableExactly(n: nat)
    ensures Interchangeable(n) <==> n >= HEADERS
  {
    hide Program, EncodeAll, Encodable, StrictRun, Run, Matches;
    if n >= HEADERS {
      forall ast: Ast, packet: Packet | |packet| == n ensures SameVerdict(ast, packet) {
        if Assemble(Program(ast)).Ok? { StrictAndLenientAgree(ast, packet); }
      }
    } else {
      StrictBoundIsTight(n);
      assert !SameVerdict(NOT_DST_PORT_1, LongHeaderPacket(n, 0));
    }
  }
}
