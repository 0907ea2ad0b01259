/** The label assembler: jumps are recorded with labels and patched to relative offsets at the end. */
module Assembler {
  import opened Common
  import opened Bits
  import opened Bpf
  import opened Layout

  type LabelId = nat

  /** An instruction as it was emitted: a jump still names its labels. */
  datatype Emitted = Straight(inst: Instruction) | Jump(inst: Instruction, trueLabel: LabelId, falseLabel: LabelId)

  type Patch = (nat, bool, LabelId)

  function PatchesOf(e: Emitted, idx: nat): seq<Patch> {
    match e
    case Straight(_) => []
    case Jump(_, t, f) => [(idx, true, t), (idx, false, f)]
  }

  /** The patches that emitting `code` leaves behind, in order. */
  function Patches(code: seq<Emitted>): seq<Patch> {
    if code == [] then [] else Patches(code[..|code| - 1]) + PatchesOf(code[|code| - 1], |code| - 1)
  }

  function PatchError(p: Patch, labels: map<LabelId, nat>): Option<AsmError> {
    if p.2 !in labels then Some(MissingLabel(p.2)) else OffsetError(p.0, labels[p.2])
  }

  /** The error of the first patch that cannot be applied. */
  function FirstPatchError(pending: seq<Patch>, labels: map<LabelId, nat>): (e: Option<AsmError>)
    ensures e == None <==> forall q :: 0 <= q < |pending| ==> PatchError(pending[q], labels) == None
  {
    if pending == [] then None
    else
      var last := |pending| - 1;
      var e := FirstPatchError(pending[..last], labels);
      if e.Some? then e else PatchError(pending[last], labels)
  }

  function Offset(labels: map<LabelId, nat>, idx: nat, lbl: LabelId): u8
    requires lbl in labels && OffsetError(idx, labels[lbl]) == None
  {
    labels[lbl] - (idx + 1)
  }

  /** The instruction at `idx` once both its offsets are in place. */
  function Patched(e: Emitted, idx: nat, labels: map<LabelId, nat>): Instruction
    requires e.Jump? ==>
               PatchError((idx, true, e.trueLabel), labels) == None &&
               PatchError((idx, false, e.falseLabel), labels) == None
  {
    match e
    case Straight(inst) => inst
    case Jump(inst, t, f) => inst.(jt := Offset(labels, idx, t), jf := Offset(labels, idx, f))
  }

  function WithOffset(inst: Instruction, isTrue: bool, offset: u8): Instruction {
    if isTrue then inst.(jt := offset) else inst.(jf := offset)
  }

  function WithPatch(prog: seq<Instruction>, p: Patch, labels: map<LabelId, nat>): (next: seq<Instruction>)
    requires p.0 < |prog| && PatchError(p, labels) == None
    ensures |next| == |prog|
  {
    prog[p.0 := WithOffset(prog[p.0], p.1, Offset(labels, p.0, p.2))]
  }

  /** Carry out the patches in this order; the first that cannot be applied is the error. */
  function PatchAll(prog: seq<Instruction>, pending: seq<Patch>, labels: map<LabelId, nat>): (r: Assembly)
    requires forall p :: p in pending ==> p.0 < |prog|
    ensures r.Ok? ==> |r.program| == |prog|
    decreases |pending|
  {
    if pending == [] then Ok(prog)
    else
      match PatchError(pending[0], labels)
      case Some(e) => Err(e)
      case None => PatchAll(WithPatch(prog, pending[0], labels), pending[1..], labels)
  }

  /** The patches of an instruction are recorded, and a patch is recorded for nothing else. */
  lemma {:induction false} PatchesExact(code: seq<Emitted>)
    ensures forall p: Patch :: p in Patches(code) <==> p.0 < |code| && p in PatchesOf(code[p.0], p.0)
  {
    if code != [] {
      var last := |code| - 1;
      var front := code[..last];
      PatchesExact(front);
      forall p: Patch
        ensures p in Patches(code) <==> p.0 < |code| && p in PatchesOf(code[p.0], p.0)
      {
        assert p in Patches(code) <==> p in Patches(front) || p in PatchesOf(code[last], last);
        assert p.0 < last ==> front[p.0] == code[p.0];
      }
    }
  }

  /** Each of the two offsets of an instruction is patched at most once. */
  lemma {:induction false} PatchesUnique(code: seq<Emitted>)
    ensures forall q, q' :: 0 <= q < q' < |Patches(code)| ==>
              (Patches(code)[q].0, Patches(code)[q].1) != (Patches(code)[q'].0, Patches(code)[q'].1)
  {
    if code != [] {
      PatchesUnique(code[..|code| - 1]);
      PatchesExact(code[..|code| - 1]);
    }
  }

  /** `code` with its labels standing for the positions in `at` is the code `c`. */
  ghost predicate Realizes(code: seq<Emitted>, at: map<LabelId, nat>, c: Code) {
    |code| == |c| &&
    forall i :: 0 <= i < |c| ==> RealizesOne(code[i], at, c[i])
  }

  ghost predicate RealizesOne(e: Emitted, at: map<LabelId, nat>, p: Placed) {
    match e
    case Straight(inst) => p == Plain(inst)
    case Jump(inst, t, f) => t in at && f in at && p == Branch(inst, at[t], at[f])
  }

  /** What an assembler was told so far: the emitted code, the code with every label replaced by the
      position `at` its allocator meant it for, the next label, the labels placed, and whether one was placed again. */
  datatype Draft = Draft(code: seq<Emitted>, layout: Code, at: map<LabelId, nat>, next: LabelId,
                         placed: set<LabelId>, again: bool)
  {
    function Position(l: LabelId): nat {
      if l in at then at[l] else 0
    }

    function Allocated(position: nat): Draft {
      this.(at := at[next := position], next := next + 1)
    }

    function Plus(inst: Instruction): Draft {
      this.(code := code + [Straight(inst)], layout := layout + [Plain(inst)])
    }

    function PlusJump(inst: Instruction, t: LabelId, f: LabelId): Draft {
      this.(code := code + [Jump(inst, t, f)], layout := layout + [Branch(inst, Position(t), Position(f))])
    }

    function Placing(l: LabelId): Draft {
      this.(placed := placed + {l}, again := again || l in placed)
    }

    /** From `before` on exactly `c` was appended, and every label allocated since then was placed
        once, apart from the labels in `open`, which were not placed yet. */
    ghost predicate Extends(before: Draft, c: Code, open: set<LabelId> := {}) {
      layout == before.layout + c && before.next <= next && again == before.again &&
      (forall l: nat :: l in before.at ==> l in at && at[l] == before.at[l]) &&
      forall l: nat :: l in placed <==> l in before.placed || (before.next <= l < next && l !in open)
    }
  }

  /** What was allocated before a draft was extended keeps its position, and the code got longer. */
  lemma Kept(d: Draft, e: Draft, c: Code, open: set<LabelId>)
    requires e.Extends(d, c, open)
    ensures forall l: nat :: l in d.at ==> l in e.at && e.at[l] == d.at[l]
    ensures |e.layout| == |d.layout| + |c|
  {
  }

  /** Extending twice is extending by both codes in sequence; the code appended so far is returned. */
  lemma Appended(d: Draft, e: Draft, f: Draft, c1: Code, c2: Code, open: set<LabelId>) returns (c: Code)
    requires e.Extends(d, c1, open) && f.Extends(e, c2)
    requires forall l :: l in open ==> l < e.next && l !in e.placed
    ensures c == c1 + c2 && f.Extends(d, c, open)
    ensures forall l: nat :: l in d.at ==> l in f.at && f.at[l] == d.at[l]
    ensures forall l :: l in open ==> l < f.next && l !in f.placed
    ensures forall l: nat :: l in e.at ==> l in f.at && f.at[l] == e.at[l]
    ensures |f.layout| == |d.layout| + |c|
  {
    c := c1 + c2;
  }

  lemma NothingYet(d: Draft) returns (c: Code)
    ensures c == [] && d.Extends(d, c)
  {
    c := [];
  }

  lemma PlusExtends(d: Draft, inst: Instruction)
    ensures d.Plus(inst).Extends(d, [Plain(inst)])
  {
  }

  /** The shape of a test in two parts: a label is allocated for the second part, the first part is
      emitted, the label is placed and the second part is emitted. */
  lemma ExtendsOverLabel(d: Draft, e: Draft, f: Draft, position: nat, c1: Code, c2: Code)
    requires d.next !in d.placed && d.next !in d.at
    requires e.Extends(d.Allocated(position), c1) && f.Extends(e.Placing(d.next), c2)
    ensures f.Extends(d, c1 + c2)
  {
  }

  /** Placing the one label left open closes the extension. */
  lemma ExtendsClosed(d: Draft, e: Draft, c: Code, lbl: LabelId)
    requires e.Extends(d, c, {lbl}) && d.next <= lbl < e.next && lbl !in e.placed
    ensures e.Placing(lbl).Extends(d, c)
  {
  }

  class Assembler {
    var insts: seq<Instruction>
    var labels: map<LabelId, nat>
    var pending: seq<Patch>
    var nextLabel: LabelId
    ghost var draft: Draft

    ghost predicate Valid()
      reads this
    {
      |insts| == |draft.code| == |draft.layout| && (forall i :: 0 <= i < |insts| ==> insts[i] == draft.code[i].inst) &&
      pending == Patches(draft.code) && nextLabel == draft.next &&
      (forall l: nat :: l in labels <==> l in draft.placed) &&
      (forall l: nat :: l in draft.at <==> l < nextLabel)
    }

    /** Every label used was allocated, and every label placed stands where it was planned. */
    ghost predicate OnPlan()
      reads this
    {
      Realizes(draft.code, draft.at, draft.layout) &&
      forall l: nat :: l in labels ==> l in draft.at && draft.at[l] == labels[l]
    }

    ghost predicate Ready()
      reads this
    {
      Valid() && OnPlan()
    }

    constructor ()
      ensures Ready()
      ensures insts == [] && labels == map[] && pending == [] && nextLabel == 0
      ensures draft == Draft([], [], map[], 0, {}, false)
    {
      insts, labels, pending, nextLabel := [], map[], [], 0;
      draft := Draft([], [], map[], 0, {}, false);
    }

    /** Allocate a label; `position` is where the caller is going to place it. */
    method NewLabel(ghost position: nat) returns (id: LabelId)
      requires Valid()
      modifies `nextLabel, `draft
      ensures Valid() && id == old(nextLabel) && nextLabel == id + 1
      ensures id == old(draft).next && id !in old(draft).at && draft == old(draft).Allocated(position)
      ensures old(Ready()) ==> Ready() && id !in draft.placed
    {
      id := nextLabel;
      nextLabel := nextLabel + 1;
      draft := draft.Allocated(position);
    }

    function NextIndex(): (index: nat)
      requires Valid()
      reads this
      ensures index == |draft.layout|
    {
      |insts|
    }

    method Emit(inst: Instruction) returns (idx: nat)
      requires Valid()
      modifies `insts, `draft
      ensures Valid() && idx == |old(insts)| && insts == old(insts) + [inst]
      ensures draft == old(draft).Plus(inst)
      ensures old(Ready()) ==> Ready()
    {
      idx := |insts|;
      insts := insts + [inst];
      draft := draft.Plus(inst);
      assert draft.code[..|draft.code| - 1] == old(draft).code;
    }

    method EmitJump(inst: Instruction, trueLabel: LabelId, falseLabel: LabelId) returns (idx: nat)
      requires Valid()
      modifies `insts, `pending, `draft
      ensures Valid() && idx == |old(insts)| && insts == old(insts) + [inst]
      ensures pending == old(pending) + [(idx, true, trueLabel), (idx, false, falseLabel)]
      ensures draft == old(draft).PlusJump(inst, trueLabel, falseLabel)
      ensures old(Ready()) && trueLabel in draft.at && falseLabel in draft.at ==> Ready()
    {
      idx := |insts|;
      pending := pending + [(idx, true, trueLabel)];
      pending := pending + [(idx, false, falseLabel)];
      insts := insts + [inst];
      draft := draft.PlusJump(inst, trueLabel, falseLabel);
      assert draft.code[..|draft.code| - 1] == old(draft).code;
    }

    method PlaceLabel(lbl: LabelId, index: nat)
      requires Valid()
      modifies `labels, `draft
      ensures Valid() && labels == old(labels)[lbl := index]
      ensures draft == old(draft).Placing(lbl)
      ensures draft.again <==> old(draft.again) || lbl in old(labels)
      ensures old(Ready()) && lbl in draft.at && draft.at[lbl] == index ==> Ready()
    {
      labels := labels[lbl := index];
      draft := draft.Placing(lbl);
    }

    /** Turn every label reference into a relative offset; the first that does not fit is the error. */
    method Resolve() returns (r: Assembly)
      requires Valid()
      ensures forall p :: p in pending ==> p.0 < |insts|
      ensures r == PatchAll(insts, pending, labels)
      ensures var e := FirstPatchError(pending, labels);
              if e.Some? then r == Err(e.value) else r.Ok? && AllPatched(r.program, draft.code, labels)
    {
      hide Patches, FirstPatchError;
      var prog := insts;
      PatchesInside(draft.code);
      PatchAllExact(insts, draft.code, labels);
      hide AllPatched;
      assert pending[0..] == pending;
      for j := 0 to |pending|
        invariant |prog| == |insts|
        invariant PatchAll(prog, pending[j..], labels) == PatchAll(insts, pending, labels)
      {
        var (idx, isTrue, lbl) := pending[j];
        assert pending[j..][0] == pending[j] && pending[j..][1..] == pending[j + 1..];
        if lbl !in labels {
          return Err(MissingLabel(lbl));
        }
        var target := labels[lbl];
        if target < idx + 1 {
          return Err(BackwardJump(idx, target));
        }
        var offset := target - (idx + 1);
        if offset > 255 {
          return Err(OffsetTooFar(offset));
        }
        if isTrue {
          prog := prog[idx := prog[idx].(jt := offset)];
        } else {
          prog := prog[idx := prog[idx].(jf := offset)];
        }
      }
      return Ok(prog);
    }
  }

  ghost predicate PatchedAt(program: seq<Instruction>, code: seq<Emitted>, labels: map<LabelId, nat>, i: nat)
    requires i < |program| == |code|
  {
    (code[i].Jump? ==> PatchError((i, true, code[i].trueLabel), labels) == None &&
                       PatchError((i, false, code[i].falseLabel), labels) == None) &&
    program[i] == Patched(code[i], i, labels)
  }

  /** Every instruction of `code` with its offsets filled in, and nothing else changed. */
  ghost predicate AllPatched(program: seq<Instruction>, code: seq<Emitted>, labels: map<LabelId, nat>) {
    |program| == |code| && forall i :: 0 <= i < |code| ==> PatchedAt(program, code, labels, i)
  }

  ghost predicate Applied(prog: seq<Instruction>, p: Patch, labels: map<LabelId, nat>) {
    p.0 < |prog| && PatchError(p, labels) == None &&
    (if p.1 then prog[p.0].jt else prog[p.0].jf) == Offset(labels, p.0, p.2)
  }

  /** An offset is patched in one way only, be it more than once. */
  ghost predicate OneWay(pending: seq<Patch>) {
    forall p, q :: p in pending && q in pending && p.0 == q.0 && p.1 == q.1 ==> p == q
  }

  /** The offset of the instruction at `i` for the branch `isTrue`. */
  function OffsetAt(prog: seq<Instruction>, i: nat, isTrue: bool): u8
    requires i < |prog|
  {
    if isTrue then prog[i].jt else prog[i].jf
  }

  /** What patching leaves alone, and that no patch is undone by a later one. */
  lemma {:induction false} PatchAllApplies(prog: seq<Instruction>, pending: seq<Patch>, labels: map<LabelId, nat>)
    requires forall p :: p in pending ==> p.0 < |prog|
    requires OneWay(pending) && PatchAll(prog, pending, labels).Ok?
    ensures var res := PatchAll(prog, pending, labels).program;
            (forall i :: 0 <= i < |prog| ==> res[i].code == prog[i].code && res[i].k == prog[i].k) &&
            (forall p :: p in pending ==> Applied(res, p, labels)) &&
            (forall i, b :: 0 <= i < |prog| && (forall p :: p in pending ==> p.0 != i || p.1 != b) ==>
               OffsetAt(res, i, b) == OffsetAt(prog, i, b))
    decreases |pending|
  {
    if pending != [] {
      var p, rest := pending[0], pending[1..];
      assert forall q :: q in pending <==> q == p || q in rest;
      var next := WithPatch(prog, p, labels);
      PatchAllApplies(next, rest, labels);
      assert Applied(next, p, labels);
      var res := PatchAll(next, rest, labels).program;
      if p in rest {
        assert Applied(res, p, labels);
      } else {
        assert OffsetAt(res, p.0, p.1) == OffsetAt(next, p.0, p.1);
      }
    }
  }

  lemma {:induction false} PatchAllError(prog: seq<Instruction>, pending: seq<Patch>, labels: map<LabelId, nat>)
    requires forall p :: p in pending ==> p.0 < |prog|
    ensures var e := FirstPatchError(pending, labels);
            if e.Some? then PatchAll(prog, pending, labels) == Err(e.value) else PatchAll(prog, pending, labels).Ok?
    decreases |pending|
  {
    if pending != [] {
      var p, rest := pending[0], pending[1..];
      var single: seq<Patch> := [p];
      assert pending == single + rest && single[..0] == [];
      FirstPatchErrorAppend(single, rest, labels);
      NoPatchError(labels);
      assert FirstPatchError(single, labels) == PatchError(p, labels);
      if PatchError(p, labels) == None { PatchAllError(WithPatch(prog, p, labels), rest, labels); }
    }
  }

  lemma NoPatchError(labels: map<LabelId, nat>)
    ensures FirstPatchError([], labels) == None
  {
  }

  lemma PatchesInside(code: seq<Emitted>)
    ensures forall p :: p in Patches(code) ==> p.0 < |code|
    ensures OneWay(Patches(code))
  {
    hide Patches;
    PatchesExact(code);
    forall p, q | p in Patches(code) && q in Patches(code) && p.0 == q.0 && p.1 == q.1 ensures p == q {
      assert p in PatchesOf(code[p.0], p.0) && q in PatchesOf(code[p.0], p.0);
    }
  }

  /** Patching in the order of emission fills in every offset of every jump, or fails with the first error. */
  lemma PatchAllExact(insts: seq<Instruction>, code: seq<Emitted>, labels: map<LabelId, nat>)
    requires |insts| == |code| && forall i :: 0 <= i < |insts| ==> insts[i] == code[i].inst
    ensures forall p :: p in Patches(code) ==> p.0 < |insts|
    ensures var e, r := FirstPatchError(Patches(code), labels), PatchAll(insts, Patches(code), labels);
            if e.Some? then r == Err(e.value) else r.Ok? && AllPatched(r.program, code, labels)
  {
    hide Patches, FirstPatchError, PatchAll;
    PatchesInside(code);
    PatchAllError(insts, Patches(code), labels);
    var r := PatchAll(insts, Patches(code), labels);
    if r.Ok? {
      PatchAllApplies(insts, Patches(code), labels);
      PatchesExact(code);
      forall i | 0 <= i < |code| ensures PatchedAt(r.program, code, labels, i) {
        if code[i].Jump? {
          var t: Patch, f: Patch := (i, true, code[i].trueLabel), (i, false, code[i].falseLabel);
          assert t in PatchesOf(code[i], i) && f in PatchesOf(code[i], i);
          assert Applied(r.program, t, labels) && Applied(r.program, f, labels);
        } else {
          assert OffsetAt(r.program, i, true) == OffsetAt(insts, i, true);
          assert OffsetAt(r.program, i, false) == OffsetAt(insts, i, false);
        }
      }
    }
  }

  // ----- the order of patching does not matter -----

  lemma SuccessInAnyOrder(prog: seq<Instruction>, pending: seq<Patch>, q: seq<Patch>, labels: map<LabelId, nat>)
    requires forall p :: p in pending ==> p.0 < |prog|
    requires forall p :: p in q <==> p in pending
    ensures PatchAll(prog, q, labels).Ok? <==> PatchAll(prog, pending, labels).Ok?
  {
    hide PatchAll;
    PatchAllError(prog, pending, labels);
    PatchAllError(prog, q, labels);
    assert FirstPatchError(q, labels) == None <==> FirstPatchError(pending, labels) == None by {
      NoErrorAtAll(q, labels);
      NoErrorAtAll(pending, labels);
    }
  }

  lemma NoErrorAtAll(pending: seq<Patch>, labels: map<LabelId, nat>)
    ensures FirstPatchError(pending, labels) == None <==> forall p :: p in pending ==> PatchError(p, labels) == None
  {
    hide PatchError;
    assert forall q :: 0 <= q < |pending| ==> pending[q] in pending;
  }

  /** Patches that do not contradict each other give the same program in any order, however often each occurs. */
  lemma SameProgramInAnyOrder(prog: seq<Instruction>, pending: seq<Patch>, q: seq<Patch>, labels: map<LabelId, nat>)
    requires forall p :: p in pending ==> p.0 < |prog|
    requires forall p :: p in q <==> p in pending
    requires OneWay(pending) && PatchAll(prog, pending, labels).Ok? && PatchAll(prog, q, labels).Ok?
    ensures PatchAll(prog, q, labels) == PatchAll(prog, pending, labels)
  {
    hide PatchAll, PatchError;
    PatchAllApplies(prog, pending, labels);
    PatchAllApplies(prog, q, labels);
    var x, y := PatchAll(prog, pending, labels).program, PatchAll(prog, q, labels).program;
    forall i | 0 <= i < |prog| ensures x[i] == y[i] {
      SameOffset(prog, pending, q, x, y, i, true, labels);
      SameOffset(prog, pending, q, x, y, i, false, labels);
    }
  }

  lemma SameOffset(prog: seq<Instruction>, pending: seq<Patch>, q: seq<Patch>, x: seq<Instruction>, y: seq<Instruction>,
                   i: nat, b: bool, labels: map<LabelId, nat>)
    requires |x| == |y| == |prog| && i < |prog|
    requires forall p :: p in q <==> p in pending
    requires forall p :: p in pending ==> Applied(x, p, labels) && Applied(y, p, labels)
    requires (forall p :: p in pending ==> p.0 != i || p.1 != b) ==> OffsetAt(x, i, b) == OffsetAt(y, i, b)
    ensures OffsetAt(x, i, b) == OffsetAt(y, i, b)
  {
    if p :| p in pending && p.0 == i && p.1 == b {
      assert Applied(x, p, labels) && Applied(y, p, labels);
    }
  }

  /** Patching in any order of the recorded patches fails exactly when patching in their own order fails,
      and otherwise gives the same program. */
  lemma OrderIrrelevant(insts: seq<Instruction>, code: seq<Emitted>, q: seq<Patch>, labels: map<LabelId, nat>)
    requires |insts| == |code| && forall i :: 0 <= i < |insts| ==> insts[i] == code[i].inst
    requires multiset(q) == multiset(Patches(code))
    ensures forall p :: p in q <==> p in Patches(code)
    ensures forall p :: p in Patches(code) ==> p.0 < |insts|
    ensures var r := PatchAll(insts, q, labels);
            if FirstPatchError(Patches(code), labels).Some? then r.Err?
            else r == PatchAll(insts, Patches(code), labels) && r.Ok? && AllPatched(r.program, code, labels)
  {
    hide Patches, FirstPatchError, PatchAll, AllPatched;
    SameElements(q, Patches(code));
    PatchesInside(code);
    PatchAllExact(insts, code, labels);
    SuccessInAnyOrder(insts, Patches(code), q, labels);
    if PatchAll(insts, q, labels).Ok? { SameProgramInAnyOrder(insts, Patches(code), q, labels); }
  }

  lemma SameElements(q: seq<Patch>, pending: seq<Patch>)
    requires multiset(q) == multiset(pending)
    ensures forall p :: p in q <==> p in pending
  {
    forall p: Patch ensures p in q <==> p in pending {
      assert p in q <==> p in multiset(q);
    }
  }

  // ----- resolving labels is encoding the layout -----

  lemma {:induction false} FirstErrorOfPair(c: Code, p: Placed, s: nat)
    ensures FirstError(c + [p], s) == if FirstError(c, s).Some? then FirstError(c, s) else FirstError([p], s + |c|)
    decreases |c|
  {
    if c != [] {
      assert (c + [p])[1..] == c[1..] + [p];
      FirstErrorOfPair(c[1..], p, s + 1);
    } else {
      assert c + [p] == [p];
    }
  }

  lemma {:induction false} FirstPatchErrorAppend(p: seq<Patch>, q: seq<Patch>, labels: map<LabelId, nat>)
    ensures FirstPatchError(p + q, labels) == if FirstPatchError(p, labels).Some? then FirstPatchError(p, labels)
            else FirstPatchError(q, labels)
    decreases |q|
  {
    if q == [] {
      assert p + q == p;
    } else {
      var front := q[..|q| - 1];
      assert (p + q)[..|p + q| - 1] == p + front;
      FirstPatchErrorAppend(p, front, labels);
    }
  }

  /** Labels do not show: the patches of labelled code fail where, and as, its layout fails to encode. */
  lemma {:induction false} PatchErrorsAgree(code: seq<Emitted>, at: map<LabelId, nat>, c: Code)
    requires Realizes(code, at, c)
    ensures FirstPatchError(Patches(code), at) == FirstError(c, 0)
    decreases |code|
  {
    hide Patches, FirstPatchError, FirstError;
    NoErrors(at);
    if code != [] {
      var last := |code| - 1;
      var front, e, p := code[..last], code[last], c[last];
      assert c == c[..last] + [p] && RealizesOne(e, at, p);
      assert Realizes(front, at, c[..last]) by {
        assert forall i :: 0 <= i < last ==> RealizesOne(code[i], at, c[i]);
      }
      PatchErrorsAgree(front, at, c[..last]);
      FirstErrorOfPair(c[..last], p, 0);
      PatchesStep(code);
      FirstPatchErrorAppend(Patches(front), PatchesOf(e, last), at);
      OneErrorAgrees(e, last, at, p);
    }
  }

  lemma NoErrors(at: map<LabelId, nat>)
    ensures Patches([]) == [] && FirstPatchError([], at) == None && FirstError([], 0) == None
  {
  }

  lemma PatchesStep(code: seq<Emitted>)
    requires code != []
    ensures var last := |code| - 1; Patches(code) == Patches(code[..last]) + PatchesOf(code[last], last)
  {
  }

  lemma OneErrorAgrees(e: Emitted, idx: nat, at: map<LabelId, nat>, p: Placed)
    requires RealizesOne(e, at, p)
    ensures FirstPatchError(PatchesOf(e, idx), at) == FirstError([p], idx)
  {
    assert FirstError([], idx + 1) == None;
    if e.Jump? {
      var t: Patch, f: Patch := (idx, true, e.trueLabel), (idx, false, e.falseLabel);
      assert PatchesOf(e, idx)[..1] == [t] && [t][..0] == [];
      assert FirstPatchError([], at) == None;
      assert FirstPatchError([t], at) == PatchError(t, at);
    }
  }

  /** What resolving gives is the layout encoded, or the first error of encoding it. */
  lemma ResolvedIsAssembled(code: seq<Emitted>, at: map<LabelId, nat>, c: Code, r: Assembly)
    requires Realizes(code, at, c)
    requires var e := FirstPatchError(Patches(code), at);
             if e.Some? then r == Err(e.value) else r.Ok? && AllPatched(r.program, code, at)
    ensures r == Assemble(c)
  {
    hide Patches, FirstPatchError, FirstError;
    PatchErrorsAgree(code, at, c);
    if r.Ok? {
      var want := EncodeAll(c, 0);
      forall i | 0 <= i < |c| ensures r.program[i] == want[i] {
        assert RealizesOne(code[i], at, c[i]) && InReach(c[i], 0 + i) && PatchedAt(r.program, code, at, i);
        assert want[i] == Encode(c[i], 0 + i);
      }
    }
  }
}
