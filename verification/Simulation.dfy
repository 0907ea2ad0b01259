/** Code placed anywhere in a program behaves as the filter it was generated from. */
module Simulation {
  import opened Bits
  import opened Bpf
  import opened FilterAst
  import opened Vm
  import opened Layout
  import opened Semantics

  /** Run while the program counter is before `hi`. */
  function RunTo(program: seq<Instruction>, packet: Packet, s: State, hi: nat): Outcome
    decreases |program| - s.pc
  {
    if s.pc >= hi || s.pc >= |program| then Next(s)
    else
      match Step(program, packet, s)
      case Next(s') => StepAdvances(program, packet, s); RunTo(program, packet, s', hi)
      case Return(v) => Return(v)
      case Fault => Fault
  }

  /** Running to `hi` can be cut at any earlier position. */
  lemma {:induction false} RunToSplit(program: seq<Instruction>, packet: Packet, s: State, mid: nat, hi: nat)
    requires mid <= hi
    ensures var o := RunTo(program, packet, s, mid);
            RunTo(program, packet, s, hi) == if o.Next? then RunTo(program, packet, o.state, hi) else o
    decreases |program| - s.pc
  {
    if s.pc < mid && s.pc < |program| {
      var o := Step(program, packet, s);
      if o.Next? {
        StepAdvances(program, packet, s);
        RunToSplit(program, packet, o.state, mid, hi);
      }
    }
  }

  /** A run continues from wherever a partial run stopped. */
  lemma {:induction false} RunFromRunTo(program: seq<Instruction>, packet: Packet, s: State, hi: nat)
    requires RunTo(program, packet, s, hi).Next?
    ensures Run(program, packet, s) == Run(program, packet, RunTo(program, packet, s, hi).state)
    decreases |program| - s.pc
  {
    if s.pc < hi && s.pc < |program| {
      StepAdvances(program, packet, s);
      RunFromRunTo(program, packet, Step(program, packet, s).state, hi);
    }
  }

  /** `code` stands in `program` at `s`, every jump encoded. */
  ghost predicate Loaded(program: seq<Instruction>, code: Code, s: nat) {
    s + |code| <= |program| &&
    forall i :: 0 <= i < |code| ==> InReach(code[i], s + i) && program[s + i] == Encode(code[i], s + i)
  }

  lemma LoadedSplit(program: seq<Instruction>, c: Code, d: Code, s: nat)
    requires Loaded(program, c + d, s)
    ensures Loaded(program, c, s) && Loaded(program, d, s + |c|)
  {
    forall i | 0 <= i < |c|
      ensures InReach(c[i], s + i) && program[s + i] == Encode(c[i], s + i)
    {
      assert (c + d)[i] == c[i];
    }
    forall i | 0 <= i < |d|
      ensures InReach(d[i], s + |c| + i) && program[s + |c| + i] == Encode(d[i], s + |c| + i)
    {
      assert (c + d)[|c| + i] == d[i];
    }
  }

  /** From `s`, control leaves the block before `hi` exactly at `target`, with X equal to `x`. */
  ghost predicate Lands(program: seq<Instruction>, packet: Packet, s: State, hi: nat, target: nat, x: u32) {
    var o := RunTo(program, packet, s, hi);
    o.Next? && o.state.pc == target && o.state.x == x
  }

  /** Landing at `mid` and from there at `target` is landing at `target`. */
  lemma LandsThen(program: seq<Instruction>, packet: Packet, s: State, mid: nat, at: nat, x: u32, hi: nat)
    requires Lands(program, packet, s, mid, at, x) && mid <= hi
    ensures at >= hi ==> Lands(program, packet, s, hi, at, x)
    ensures RunTo(program, packet, s, hi) == RunTo(program, packet, RunTo(program, packet, s, mid).state, hi)
  {
    RunToSplit(program, packet, s, mid, hi);
  }

  // ----- single instructions -----

  predicate IsLoad(op: Op) { op.LoadAbs? || op.LoadInd? || op.LoadLen? }

  /** What a load puts into A. */
  function Field(load: Instruction, packet: Packet, x: u32): u32 {
    match Decode(load)
    case LoadAbs(w, k) => Load(packet, w, k)
    case LoadInd(w, k) => Load(packet, w, x + k)
    case LoadLen => |packet| % 0x1_0000_0000
    case _ => 0
  }

  lemma LoadStep(program: seq<Instruction>, packet: Packet, s: State, load: Instruction, hi: nat)
    requires s.pc < |program| && s.pc < hi && program[s.pc] == load && IsLoad(Decode(load))
    ensures RunTo(program, packet, s, hi) == RunTo(program, packet,
                                                   s.(pc := s.pc + 1, a := Field(load, packet, s.x)), hi)
  {
  }

  /** The conditional jumps the compiler uses. */
  function JumpOn(test: Test, k: u32): Instruction {
    match test
    case Equal => Jeq(k)
    case Greater => Jgt(k)
    case GreaterOrEqual => Jge(k)
    case AnyBit => Instruction(BPF_JMP | BPF_JSET | BPF_K, 0, 0, k)
  }

  lemma JumpOnDecodes(test: Test, k: u32, jt: u8, jf: u8)
    ensures Decode(JumpOn(test, k).(jt := jt, jf := jf)) == JumpIf(test, k, jt, jf)
  {
    BuildersDecode(k, jt, jf);
  }

  lemma BranchStep(program: seq<Instruction>, packet: Packet, s: State, test: Test, k: u32, p: Placed, hi: nat)
    requires s.pc < |program| && s.pc < hi && p.Branch? && InReach(p, s.pc)
    requires program[s.pc] == Encode(p, s.pc) && p.inst == JumpOn(test, k)
    ensures RunTo(program, packet, s, hi) ==
            RunTo(program, packet, s.(pc := if Vm.Holds(test, s.a, k) then p.onTrue else p.onFalse), hi)
  {
    JumpOnDecodes(test, k, p.onTrue - s.pc - 1, p.onFalse - s.pc - 1);
  }

  lemma AndStep(program: seq<Instruction>, packet: Packet, s: State, mask: u32, hi: nat)
    requires s.pc < |program| && s.pc < hi && program[s.pc] == AndK(mask)
    ensures RunTo(program, packet, s, hi) == RunTo(program, packet, s.(pc := s.pc + 1, a := Bits.And(s.a, mask)), hi)
  {
    BuildersDecode(mask, 0, 0);
    assert Step(program, packet, s) == Next(s.(pc := s.pc + 1, a := Bits.And(s.a, mask)));
  }

  // ----- building blocks -----

  /** Entered at its first instruction, the block leaves at `a` when `ok` holds and at `r` when it does not. */
  ghost predicate Decides(program: seq<Instruction>, packet: Packet, s: State, code: Code, ok: bool, a: nat, r: nat) {
    Lands(program, packet, s, s.pc + |code|, if ok then a else r, s.x)
  }

  /** The machine state when control leaves the block. */
  ghost function After(program: seq<Instruction>, packet: Packet, s: State, code: Code): State {
    var o := RunTo(program, packet, s, s.pc + |code|);
    if o.Next? then o.state else s
  }

  /** Leaving the first block early decides the pair; reaching the second leaves the decision to it. */
  lemma SequenceSim(program: seq<Instruction>, packet: Packet, s: State, first: Code, rest: Code, early: bool,
                    ok: bool, a: nat, r: nat)
    requires s.pc + |first| + |rest| <= a && s.pc + |first| + |rest| <= r
    requires Lands(program, packet, s, s.pc + |first|, if !early then s.pc + |first| else if ok then a else r, s.x)
    requires !early ==> Decides(program, packet, After(program, packet, s, first), rest, ok, a, r)
    ensures Decides(program, packet, s, first + rest, ok, a, r)
  {
    hide RunTo;
    var t, hi := After(program, packet, s, first), s.pc + |first| + |rest|;
    assert |first + rest| == |first| + |rest|;
    LandsThen(program, packet, s, s.pc + |first|, t.pc, t.x, hi);
    if !early {
      assert t.pc + |rest| == hi;
    }
  }

  /** A block that accepts into the next one: both must hold. */
  lemma ThenSim(program: seq<Instruction>, packet: Packet, s: State, first: Code, rest: Code, p: bool, q: bool,
                a: nat, r: nat)
    requires s.pc + |first| + |rest| <= a && s.pc + |first| + |rest| <= r
    requires Decides(program, packet, s, first, p, s.pc + |first|, r)
    requires p ==> Decides(program, packet, After(program, packet, s, first), rest, q, a, r)
    ensures Decides(program, packet, s, first + rest, p && q, a, r)
  {
    SequenceSim(program, packet, s, first, rest, !p, p && q, a, r);
  }

  /** A block that rejects into the next one: either must hold. */
  lemma ElseSim(program: seq<Instruction>, packet: Packet, s: State, first: Code, rest: Code, p: bool, q: bool,
                a: nat, r: nat)
    requires s.pc + |first| + |rest| <= a && s.pc + |first| + |rest| <= r
    requires Decides(program, packet, s, first, p, a, s.pc + |first|)
    requires !p ==> Decides(program, packet, After(program, packet, s, first), rest, q, a, r)
    ensures Decides(program, packet, s, first + rest, p || q, a, r)
  {
    SequenceSim(program, packet, s, first, rest, p, p || q, a, r);
  }

  lemma FieldIsSim(program: seq<Instruction>, packet: Packet, s: State, load: Instruction, k: u32, a: nat, r: nat)
    requires Loaded(program, FieldIs(load, k, a, r), s.pc) && IsLoad(Decode(load))
    ensures Decides(program, packet, s, FieldIs(load, k, a, r), Field(load, packet, s.x) == k, a, r)
  {
    var c := FieldIs(load, k, a, r);
    assert program[s.pc + 0] == Encode(c[0], s.pc) == load;
    assert program[s.pc + 1] == Encode(c[1], s.pc + 1);
    LoadStep(program, packet, s, load, s.pc + 2);
    BranchStep(program, packet, s.(pc := s.pc + 1, a := Field(load, packet, s.x)), Equal, k, c[1], s.pc + 2);
  }

  lemma FieldsInSim(program: seq<Instruction>, packet: Packet, s: State, dir: Direction, src: Instruction,
                    dst: Instruction,
                    k: u32, a: nat, r: nat)
    requires var c := FieldsIn(dir, src, dst, k, s.pc, a, r);
             Loaded(program, c, s.pc) && s.pc + |c| <= a && s.pc + |c| <= r
    requires IsLoad(Decode(src)) && IsLoad(Decode(dst))
    ensures Decides(program, packet, s, FieldsIn(dir, src, dst, k, s.pc, a, r),
                    Selected(dir, Field(src, packet, s.x) == k, Field(dst, packet, s.x) == k), a, r)
  {
    match dir
    case Any =>
      var first, rest := FieldIs(src, k, a, s.pc + 2), FieldIs(dst, k, a, r);
      var p, q := Field(src, packet, s.x) == k, Field(dst, packet, s.x) == k;
      LoadedSplit(program, first, rest, s.pc);
      FieldIsSim(program, packet, s, src, k, a, s.pc + 2);
      if !p { FieldIsSim(program, packet, After(program, packet, s, first), dst, k, a, r); }
      ElseSim(program, packet, s, first, rest, p, q, a, r);
    case Src => FieldIsSim(program, packet, s, src, k, a, r);
    case Dst => FieldIsSim(program, packet, s, dst, k, a, r);
  }

  lemma FieldBetweenSim(program: seq<Instruction>, packet: Packet, s: State, load: Instruction, lo: u32, hi: u32,
                        a: nat, r: nat)
    requires Loaded(program, FieldBetween(load, lo, hi, s.pc, a, r), s.pc) && IsLoad(Decode(load))
    requires s.pc + 3 <= r
    ensures Decides(program, packet, s, FieldBetween(load, lo, hi, s.pc, a, r),
                    Between(lo, Field(load, packet, s.x), hi), a, r)
  {
    var c, end := FieldBetween(load, lo, hi, s.pc, a, r), s.pc + 3;
    assert program[s.pc + 0] == Encode(c[0], s.pc) == load;
    assert program[s.pc + 1] == Encode(c[1], s.pc + 1);
    assert program[s.pc + 2] == Encode(c[2], s.pc + 2);
    LoadStep(program, packet, s, load, end);
    var t := s.(pc := s.pc + 1, a := Field(load, packet, s.x));
    BranchStep(program, packet, t, GreaterOrEqual, lo, c[1], end);
    BranchStep(program, packet, t.(pc := s.pc + 2), Greater, hi, c[2], end);
  }

  lemma RangesInSim(program: seq<Instruction>, packet: Packet, s: State, dir: Direction, src: Instruction,
                    dst: Instruction,
                    lo: u32, hi: u32, a: nat, r: nat)
    requires var c := RangesIn(dir, src, dst, lo, hi, s.pc, a, r);
             Loaded(program, c, s.pc) && s.pc + |c| <= a && s.pc + |c| <= r
    requires IsLoad(Decode(src)) && IsLoad(Decode(dst))
    ensures Decides(program, packet, s, RangesIn(dir, src, dst, lo, hi, s.pc, a, r),
                    RangeSelected(dir, lo, Field(src, packet, s.x), Field(dst, packet, s.x), hi), a, r)
  {
    hide RunTo, Field, FieldBetween;
    match dir
    case Any =>
      var first := [Plain(src), Branch(Jge(lo), s.pc + 2, r), Branch(Jgt(hi), s.pc + 3, a)];
      var rest := FieldBetween(dst, lo, hi, s.pc + 3, a, r);
      var x, y := Field(src, packet, s.x), Field(dst, packet, s.x);
      LoadedSplit(program, first, rest, s.pc);
      RangeStartSim(program, packet, s, src, lo, hi, a, r);
      if lo <= x && hi < x {
        FieldBetweenSim(program, packet, After(program, packet, s, first), dst, lo, hi, a, r);
      }
      SequenceSim(program, packet, s, first, rest, x < lo || x <= hi, RangeSelected(Any, lo, x, y, hi), a, r);
    case Src => FieldBetweenSim(program, packet, s, src, lo, hi, a, r);
    case Dst => FieldBetweenSim(program, packet, s, dst, lo, hi, a, r);
  }

  lemma RangeStartSim(program: seq<Instruction>, packet: Packet, s: State, src: Instruction, lo: u32, hi: u32,
                      a: nat, r: nat)
    requires Loaded(program, [Plain(src), Branch(Jge(lo), s.pc + 2, r), Branch(Jgt(hi), s.pc + 3, a)], s.pc)
    requires IsLoad(Decode(src)) && s.pc + 3 <= a && s.pc + 3 <= r
    ensures var x := Field(src, packet, s.x);
            Lands(program, packet, s, s.pc + 3, if x < lo then r else if x <= hi then a else s.pc + 3, s.x)
  {
    hide Decode, Field;
    var c, end := [Plain(src), Branch(Jge(lo), s.pc + 2, r), Branch(Jgt(hi), s.pc + 3, a)], s.pc + 3;
    assert program[s.pc + 0] == Encode(c[0], s.pc) == src;
    assert program[s.pc + 1] == Encode(c[1], s.pc + 1);
    assert program[s.pc + 2] == Encode(c[2], s.pc + 2);
    LoadStep(program, packet, s, src, end);
    var t := s.(pc := s.pc + 1, a := Field(src, packet, s.x));
    BranchStep(program, packet, t, GreaterOrEqual, lo, c[1], end);
    if t.a >= lo { BranchStep(program, packet, t.(pc := s.pc + 2), Greater, hi, c[2], end); }
  }

  lemma FamilySplitSim(program: seq<Instruction>, packet: Packet, s: State, v4: nat, r: nat)
    requires Loaded(program, FamilySplit(s.pc, v4, r), s.pc) && s.pc + 3 <= v4
    ensures Lands(program, packet, s, s.pc + 3,
                  if IsIpv4(packet) then v4 else if IsIpv6(packet) then s.pc + 3 else r, s.x)
  {
    var c, end := FamilySplit(s.pc, v4, r), s.pc + 3;
    assert program[s.pc + 0] == Encode(c[0], s.pc) == LdAbsH(12);
    assert program[s.pc + 1] == Encode(c[1], s.pc + 1);
    assert program[s.pc + 2] == Encode(c[2], s.pc + 2);
    LoadStep(program, packet, s, LdAbsH(12), end);
    var t := s.(pc := s.pc + 1, a := Field(LdAbsH(12), packet, s.x));
    BranchStep(program, packet, t, Equal, ETHERTYPE_IP, c[1], end);
    BranchStep(program, packet, t.(pc := s.pc + 2), Equal, ETHERTYPE_IPV6, c[2], end);
  }

  lemma TcpOrUdpSim(program: seq<Instruction>, packet: Packet, s: State, load: Instruction, r: nat)
    requires Loaded(program, TcpOrUdp(load, s.pc, r), s.pc) && IsLoad(Decode(load)) && Field(load, packet, s.x) < 0x100
    ensures Decides(program, packet, s, TcpOrUdp(load, s.pc, r), TransportIsPorted(Field(load, packet, s.x)),
                    s.pc + 3, r)
  {
    var c, end := TcpOrUdp(load, s.pc, r), s.pc + 3;
    assert program[s.pc + 0] == Encode(c[0], s.pc) == load;
    assert program[s.pc + 1] == Encode(c[1], s.pc + 1);
    assert program[s.pc + 2] == Encode(c[2], s.pc + 2);
    LoadStep(program, packet, s, load, end);
    var t := s.(pc := s.pc + 1, a := Field(load, packet, s.x));
    BranchStep(program, packet, t, Equal, IPPROTO_TCP, c[1], end);
    BranchStep(program, packet, t.(pc := s.pc + 2), Equal, IPPROTO_UDP, c[2], end);
  }

  predicate WordsEqual(packet: Packet, offset: nat, words: seq<u32>)
    decreases |words|
  {
    words == [] || (Read32(packet, offset) == words[0] && WordsEqual(packet, offset + 4, words[1..]))
  }

  lemma {:induction false} WordsAtSim(program: seq<Instruction>, packet: Packet, s: State, offset: nat,
                                      words: seq<u32>, a: nat, r: nat)
    requires |words| > 0 && offset + 4 * |words| <= 0x1_0000
    requires Loaded(program, WordsAt(offset, words, s.pc, a, r), s.pc)
    requires s.pc + 2 * |words| <= a && s.pc + 2 * |words| <= r
    ensures Decides(program, packet, s, WordsAt(offset, words, s.pc, a, r), WordsEqual(packet, offset, words), a, r)
    decreases |words|
  {
    if |words| == 1 {
      FieldIsSim(program, packet, s, LdAbsW(offset), words[0], a, r);
    } else {
      var first, rest := FieldIs(LdAbsW(offset), words[0], s.pc + 2, r),
          WordsAt(offset + 4, words[1..], s.pc + 2, a, r);
      var p, q := Read32(packet, offset) == words[0], WordsEqual(packet, offset + 4, words[1..]);
      LoadedSplit(program, first, rest, s.pc);
      FieldIsSim(program, packet, s, LdAbsW(offset), words[0], s.pc + 2, r);
      if p { WordsAtSim(program, packet, After(program, packet, s, first), offset + 4, words[1..], a, r); }
      ThenSim(program, packet, s, first, rest, p, q, a, r);
    }
  }

  lemma MaskedFieldIsSim(program: seq<Instruction>, packet: Packet, s: State, offset: u32, mask: u32, k: u32, a: nat,
                         r: nat)
    requires Loaded(program, MaskedFieldIs(offset, mask, k, a, r), s.pc)
    ensures Decides(program, packet, s, MaskedFieldIs(offset, mask, k, a, r),
                    Bits.And(Read32(packet, offset), mask) == k, a, r)
  {
    var c, end := MaskedFieldIs(offset, mask, k, a, r), s.pc + 3;
    assert program[s.pc + 0] == Encode(c[0], s.pc) == LdAbsW(offset);
    assert program[s.pc + 1] == Encode(c[1], s.pc + 1) == AndK(mask);
    assert program[s.pc + 2] == Encode(c[2], s.pc + 2);
    LoadStep(program, packet, s, LdAbsW(offset), end);
    var t := s.(pc := s.pc + 1, a := Read32(packet, offset));
    AndStep(program, packet, t, mask, end);
    BranchStep(program, packet, t.(pc := s.pc + 2, a := Bits.And(t.a, mask)), Equal, k, c[2], end);
  }

  predicate MaskedWordsEqual(packet: Packet, offset: nat, words: seq<u32>, masks: seq<u32>)
    requires |words| == |masks|
    decreases |words|
  {
    words == [] ||
    (Bits.And(Read32(packet, offset), masks[0]) == words[0] &&
     MaskedWordsEqual(packet, offset + 4, words[1..], masks[1..]))
  }

  lemma {:induction false} MaskedWordsAtSim(program: seq<Instruction>, packet: Packet, s: State, offset: nat,
                                            words: seq<u32>, masks: seq<u32>, a: nat, r: nat)
    requires |masks| == |words| > 0 && offset + 4 * |words| <= 0x1_0000
    requires Loaded(program, MaskedWordsAt(offset, words, masks, s.pc, a, r), s.pc)
    requires s.pc + 3 * |words| <= a && s.pc + 3 * |words| <= r
    ensures Decides(program, packet, s, MaskedWordsAt(offset, words, masks, s.pc, a, r),
                    MaskedWordsEqual(packet, offset, words, masks), a, r)
    decreases |words|
  {
    if |words| == 1 {
      MaskedFieldIsSim(program, packet, s, offset, masks[0], words[0], a, r);
    } else {
      var first := MaskedFieldIs(offset, masks[0], words[0], s.pc + 3, r);
      var rest := MaskedWordsAt(offset + 4, words[1..], masks[1..], s.pc + 3, a, r);
      var p := Bits.And(Read32(packet, offset), masks[0]) == words[0];
      var q := MaskedWordsEqual(packet, offset + 4, words[1..], masks[1..]);
      LoadedSplit(program, first, rest, s.pc);
      MaskedFieldIsSim(program, packet, s, offset, masks[0], words[0], s.pc + 3, r);
      if p {
        MaskedWordsAtSim(program, packet, After(program, packet, s, first), offset + 4, words[1..], masks[1..], a, r);
      }
      ThenSim(program, packet, s, first, rest, p, q, a, r);
    }
  }

  lemma MacAtSim(program: seq<Instruction>, packet: Packet, s: State, offset: u32, mac: Mac, a: nat, r: nat)
    requires offset + 4 < 0x1_0000_0000
    requires Loaded(program, MacAt(offset, mac, s.pc, a, r), s.pc) && s.pc + 4 <= a && s.pc + 4 <= r
    ensures Decides(program, packet, s, MacAt(offset, mac, s.pc, a, r), MacIs(packet, offset, mac), a, r)
  {
    ThenFieldSim(program, packet, s, LdAbsW(offset), MacHigh(mac), LdAbsH(offset + 4), MacLow(mac), a, r);
  }

  /** Two field tests in a row, the second only if the first succeeds. */
  lemma ThenFieldSim(program: seq<Instruction>, packet: Packet, s: State, l1: Instruction, k1: u32, l2: Instruction,
                     k2: u32,
                     a: nat, r: nat)
    requires IsLoad(Decode(l1)) && IsLoad(Decode(l2)) && s.pc + 4 <= a && s.pc + 4 <= r
    requires Loaded(program, FieldIs(l1, k1, s.pc + 2, r) + FieldIs(l2, k2, a, r), s.pc)
    ensures Decides(program, packet, s, FieldIs(l1, k1, s.pc + 2, r) + FieldIs(l2, k2, a, r),
                    Field(l1, packet, s.x) == k1 && Field(l2, packet, s.x) == k2, a, r)
  {
    var first, rest := FieldIs(l1, k1, s.pc + 2, r), FieldIs(l2, k2, a, r);
    var p, q := Field(l1, packet, s.x) == k1, Field(l2, packet, s.x) == k2;
    LoadedSplit(program, first, rest, s.pc);
    FieldIsSim(program, packet, s, l1, k1, s.pc + 2, r);
    if p { FieldIsSim(program, packet, After(program, packet, s, first), l2, k2, a, r); }
    ThenSim(program, packet, s, first, rest, p, q, a, r);
  }
}
