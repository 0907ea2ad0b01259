/** From a filter expression and a capture file to the packets that are kept. */
module Pipeline {
  import opened Common
  import opened Bpf
  import opened FilterAst
  import opened Layout
  import opened Semantics
  import opened Grammar
  import opened Parser
  import opened NetMask
  import Vm
  import Compiler
  import Correctness
  import JumpRange

  type Packet = Vm.Packet

  /** What stops the program with a panic. */
  datatype Cause = ShiftOfEmptyPrefix | CannotAssemble(asmError: AsmError)

  datatype Outcome = Invalid(parseError: ParseError) | Panic(cause: Cause) | Kept(packets: seq<Packet>)

  predicate Passes(filter: Option<Ast>, packet: Packet) {
    filter.None? || Matches(filter.value, packet)
  }

  /** The packets that pass the filter, in order. */
  function Passing(filter: Option<Ast>, packets: seq<Packet>): seq<Packet> {
    if packets == [] then []
    else
      var (before, last) := (Passing(filter, packets[..|packets| - 1]), packets[|packets| - 1]);
      if Passes(filter, last) then before + [last] else before
  }

  function FirstOf(packets: seq<Packet>, count: Option<nat>): seq<Packet> {
    if count.Some? && count.value <= |packets| then packets[..count.value] else packets
  }

  /** `kept` are the packets at `places`, in order. */
  ghost predicate Ordered(places: seq<nat>, packets: seq<Packet>, kept: seq<Packet>) {
    |places| == |kept| &&
    (forall i, j :: 0 <= i < j < |places| ==> places[i] < places[j]) &&
    (forall j :: 0 <= j < |places| ==> places[j] < |packets| && kept[j] == packets[places[j]])
  }

  /** In addition all of them match, there are at most `count`, and a matching packet is missing only behind
      all of them when `count` is reached. */
  ghost predicate Selects(places: seq<nat>, filter: Option<Ast>, packets: seq<Packet>, kept: seq<Packet>,
                          count: Option<nat>)
  {
    Ordered(places, packets, kept) && (count.Some? ==> |kept| <= count.value) &&
    (forall j :: 0 <= j < |kept| ==> Passes(filter, kept[j])) &&
    (forall i :: 0 <= i < |packets| && Passes(filter, packets[i]) ==>
       i in places || (count == Some(|kept|) && forall p :: p in places ==> p < i))
  }

  lemma {:induction false} PassingSelects(filter: Option<Ast>, packets: seq<Packet>) returns (places: seq<nat>)
    ensures Ordered(places, packets, Passing(filter, packets))
    ensures forall j :: 0 <= j < |places| ==> Passes(filter, packets[places[j]])
    ensures forall i :: 0 <= i < |packets| && Passes(filter, packets[i]) ==> i in places
    decreases |packets|
  {
    hide Passes, Ordered;
    if packets == [] {
      places := NoPlaces(packets);
    } else {
      var n, front := |packets| - 1, packets[..|packets| - 1];
      var before := PassingSelects(filter, front);
      OrderedMore(before, packets, Passing(filter, front));
      places := if Passes(filter, packets[n]) then before + [n] else before;
      assert forall i :: 0 <= i < n ==> front[i] == packets[i];
      forall i | 0 <= i < |packets| && Passes(filter, packets[i]) ensures i in places {
        assert i < n ==> i in before;
        assert i == n ==> n in before + [n];
      }
    }
  }

  lemma NoPlaces(packets: seq<Packet>) returns (places: seq<nat>)
    ensures places == [] && Ordered(places, packets, [])
  {
    places := [];
  }

  lemma OrderedMore(places: seq<nat>, packets: seq<Packet>, kept: seq<Packet>)
    requires packets != [] && Ordered(places, packets[..|packets| - 1], kept)
    ensures var n := |packets| - 1;
            Ordered(places, packets, kept) && Ordered(places + [n], packets, kept + [packets[n]]) &&
            forall j :: 0 <= j < |places| ==> places[j] < n && packets[places[j]] == packets[..n][places[j]]
  {
  }

  /** The first of the packets that pass are a selection that leaves out none before the limit. */
  lemma FirstOfSelects(filter: Option<Ast>, packets: seq<Packet>, count: Option<nat>) returns (places: seq<nat>)
    ensures Selects(places, filter, packets, FirstOf(Passing(filter, packets), count), count)
  {
    hide Passes, Passing;
    var all := PassingSelects(filter, packets);
    if count.Some? && count.value < |all| {
      places := all[..count.value];
      forall i | 0 <= i < |packets| && Passes(filter, packets[i]) && i !in places
        ensures forall p :: p in places ==> p < i
      {
        Behind(all, count.value, i);
      }
    } else {
      places := all;
    }
  }

  lemma Behind(all: seq<nat>, n: nat, i: nat)
    requires n <= |all| && i in all && i !in all[..n]
    requires forall j, k :: 0 <= j < k < |all| ==> all[j] < all[k]
    ensures forall p :: p in all[..n] ==> p < i
  {
    var k :| 0 <= k < |all| && all[k] == i;
    assert forall j :: 0 <= j < n ==> all[..n][j] == all[j] && all[j] in all[..n];
    assert k >= n;
  }

  lemma {:induction false} PassingGrows(filter: Option<Ast>, packets: seq<Packet>, n: nat)
    requires n <= |packets|
    ensures Passing(filter, packets[..n]) <= Passing(filter, packets)
    decreases |packets|
  {
    if n < |packets| {
      var shorter := packets[..|packets| - 1];
      assert shorter[..n] == packets[..n];
      PassingGrows(filter, shorter, n);
    } else {
      assert packets[..n] == packets;
    }
  }

  /** The machine decides what the filter means, for every filter that can be assembled. */
  lemma CompiledDecides(ast: Ast, packet: Packet)
    requires Assemble(Program(ast)).Ok?
    ensures Vm.Verdict(Vm.Run(Assemble(Program(ast)).program, packet, Vm.START)) == Matches(ast, packet)
  {
    hide Program, Vm.Run, Matches, EncodeAll;
    Correctness.ProgramCorrect(ast, packet);
  }

  /** Keep the packets of a capture file that pass the filter expression, if there is one, up to `count`. */
  method ReadCapture(expression: Option<Tokens>, build: Build, packets: seq<Packet>, count: Option<nat>)
    returns (r: Outcome)
    ensures expression.None? ==> r == Kept(FirstOf(Passing(None, packets), count))
    ensures expression.Some? && PanicsOnPrefix(expression.value, build) ==> r == Panic(ShiftOfEmptyPrefix)
    ensures expression.Some? && ParseTokens(expression.value, build).Err? &&
            !PanicsOnPrefix(expression.value, build) ==>
              r == Invalid(ParseTokens(expression.value, build).error)
    ensures expression.Some? && ParseTokens(expression.value, build).Ok? ==>
              var ast := ParseTokens(expression.value, build).ast;
              if JumpRange.MaxSkip(ast, 0, 1) > 255
              then r.Panic? && r.cause.CannotAssemble? && r.cause.asmError.OffsetTooFar?
              else r == Kept(FirstOf(Passing(Some(ast), packets), count))
    ensures r.Kept? ==>
              var filter := if expression.None? then None else Some(ParseTokens(expression.value, build).ast);
              exists places :: Selects(places, filter, packets, r.packets, count)
    ensures r.Panic? <==>
              expression.Some? &&
              (PanicsOnPrefix(expression.value, build) ||
               (ParseTokens(expression.value, build).Ok? &&
                JumpRange.MaxSkip(ParseTokens(expression.value, build).ast, 0, 1) > 255))
  {
    hide ParseTokens, Program, JumpRange.MaxSkip, PanicsOnPrefix, Selects;
    var program: Option<seq<Instruction>> := None;
    ghost var filter: Option<Ast> := None;
    if expression.Some? {
      var parsed := ParseExpression(expression.value, build);
      OverflowExactly(expression.value, build);
      if parsed == Parsed.Err(InvalidNet(ShiftOverflow)) {
        return Panic(ShiftOfEmptyPrefix);
      }
      if parsed.Err? {
        return Invalid(parsed.error);
      }
      var assembly := Compiler.Compile(parsed.ast);
      JumpRange.AssemblesExactly(parsed.ast);
      if assembly.Err? {
        return Panic(CannotAssemble(assembly.error));
      }
      program := Some(assembly.program);
      filter := Some(parsed.ast);
    }
    var kept := KeepPassing(program, packets, count, filter);
    ghost var places := FirstOfSelects(filter, packets, count);
    r := Kept(kept);
  }

  ghost predicate Compiled(program: Option<seq<Instruction>>, filter: Option<Ast>) {
    match filter
    case None => program == None
    case Some(ast) => program.Some? && Assemble(Program(ast)) == Assembly.Ok(program.value)
  }

  method KeepPassing(program: Option<seq<Instruction>>, packets: seq<Packet>, count: Option<nat>,
                     ghost filter: Option<Ast>)
    returns (kept: seq<Packet>)
    requires Compiled(program, filter)
    ensures kept == FirstOf(Passing(filter, packets), count)
  {
    hide Program, Vm.Run, Matches, EncodeAll, Vm.Trace;
    kept := [];
    var i := 0;
    while true
      invariant 0 <= i <= |packets|
      invariant kept == Passing(filter, packets[..i])
      invariant count.Some? ==> |kept| <= count.value
      decreases |packets| - i
    {
      PassingGrows(filter, packets, i);
      if count.Some? && |kept| >= count.value {
        break;
      }
      if i == |packets| {
        assert packets[..i] == packets;
        break;
      }
      var matched := true;
      if program.Some? {
        CompiledDecides(filter.value, packets[i]);
        ghost var visited;
        matched, visited := Vm.Exec(program.value, packets[i]);
      }
      assert packets[..i + 1][..i] == packets[..i];
      if matched {
        kept := kept + [packets[i]];
      }
      i := i + 1;
    }
  }

  /** Writing a filter down, parsing it, compiling it and running it decides what the filter means. */
  lemma PrintedFilterDecides(ast: Ast, style: Style, build: Build, packet: Packet)
    requires WellFormed(ast) && JumpRange.MaxSkip(ast, 0, 1) <= 255
    ensures var parsed := ParseTokens(Print(ast, style), build);
            parsed.Ok? && Assemble(Program(parsed.ast)).Ok? &&
            Vm.Verdict(Vm.Run(Assemble(Program(parsed.ast)).program, packet, Vm.START)) == Matches(ast, packet)
  {
    hide ParseTokens, Print, Program, JumpRange.MaxSkip, Vm.Run, Matches;
    RoundTrip(ast, style, build);
    JumpRange.AssemblesExactly(ast);
    CompiledDecides(ast, packet);
  }
}
