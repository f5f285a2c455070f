/** Syntax trees of the finsh shell, their meaning, and the code finsh_compiler.c emits. */
module FinshTree {
  import opened FinshVm

  /** Node types of finsh_node.h that this model covers. */
  datatype Kind = Id | Value | Bin(op: BinOp) | Bitwise | Assign | PreInc | PreDec | Inc | Dec

  /** A node with its operands; `word` is the constant, or the address of the variable.
      `id` is the index of the node in the node table. */
  datatype Tree = Tree(id: nat, kind: Kind, word: Word, kids: seq<Tree>)

  predicate OnVariable(k: Kind) { k.Assign? || k.PreInc? || k.PreDec? || k.Inc? || k.Dec? }

  /** What the parser builds: the operand of an assignment or increment is a variable. */
  predicate WellFormed(t: Tree) {
    && |t.kids| == (match t.kind case Id => 0 case Value => 0 case Bin(_) => 2 case Assign => 2 case _ => 1)
    && (OnVariable(t.kind) ==> t.kids[0].kind == Id)
    && forall k :: 0 <= k < |t.kids| ==> WellFormed(t.kids[k])
  }

  predicate AllWellFormed(ts: seq<Tree>) { forall k :: 0 <= k < |ts| ==> WellFormed(ts[k]) }

  // ---- meaning ----

  /** The operator of a node applied to the values of its operands; for an assignment and
      for the increment operators the first operand is the address of the variable. */
  function Apply(t: Tree, v: seq<Word>, st: Store): Option<(Word, Store)>
    requires WellFormed(t) && |v| == |t.kids|
  {
    match t.kind
    case Id => if t.word in st then Some((st[t.word], st)) else None
    case Value => Some((t.word, st))
    case Bin(op) =>
      var w := Arith(op, v[0], v[1]);
      if w.None? then None else Some((w.value, st))
    case Bitwise => Some((BitNot(v[0]), st))
    case Assign => Update(st, v[0], v[1], v[1])
    case PreInc => if v[0] !in st then None else Update(st, v[0], Plus(st[v[0]], 1), Plus(st[v[0]], 1))
    case PreDec => if v[0] !in st then None else Update(st, v[0], Plus(st[v[0]], -1), Plus(st[v[0]], -1))
    case Inc => Update(st, t.kids[0].word, Plus(v[0], 1), v[0])
    case Dec => Update(st, t.kids[0].word, Plus(v[0], -1), v[0])
  }

  function Update(st: Store, a: Word, w: Word, result: Word): Option<(Word, Store)> {
    if a in st then Some((result, st[a := w])) else None
  }

  /** Operands of these nodes are wanted by address. */
  predicate WantsAddress(k: Kind) { k.Assign? || k.PreInc? || k.PreDec? }

  /** Value of an expression and the variables afterwards; None when the C code's effect is undefined. */
  function Eval(t: Tree, st: Store): Option<(Word, Store)>
    requires WellFormed(t)
    decreases t, 1
  {
    var v := EvalAll(t.kids, WantsAddress(t.kind), st);
    if v.None? then None else Apply(t, v.value.0, v.value.1)
  }

  /** Operands from left to right; only the first one can be wanted by address. */
  function EvalAll(ts: seq<Tree>, address: bool, st: Store): (r: Option<(seq<Word>, Store)>)
    requires AllWellFormed(ts)
    ensures r.Some? ==> |r.value.0| == |ts|
    decreases ts, 0
  {
    if ts == [] then Some(([], st))
    else
      var w := if address then Some((ts[0].word, st)) else Eval(ts[0], st);
      if w.None? then None
      else
        var v := EvalAll(ts[1..], false, w.value.1);
        if v.None? then None else Some(([w.value.0] + v.value.0, v.value.1))
  }

  /** A line of statements: the value of the last one counts, `last` if there is none. */
  function EvalLine(ts: seq<Tree>, last: Word, st: Store): Option<(Word, Store)>
    requires AllWellFormed(ts)
  {
    if ts == [] then Some((last, st))
    else
      var w := Eval(ts[0], st);
      if w.None? then None else EvalLine(ts[1..], w.value.0, w.value.1)
  }

  // ---- code ----

  function LoadConst(w: Word): seq<Byte> { [LD] + Bytes(w) }

  function LoadVar(a: Word): seq<Byte> { [LD_VALUE] + Bytes(a) }

  /** What finsh_compile emits for a node after the code of its operands. */
  function Own(t: Tree, address: bool): seq<Byte>
    requires WellFormed(t)
  {
    match t.kind
    case Id => if address then LoadConst(t.word) else LoadVar(t.word)
    case Value => LoadConst(t.word)
    case Bin(op) => [OpCode(op)]
    case Bitwise => [BITWISE]
    case Assign => [ST, LD_VALUE_STACK]
    case PreInc => LoadVar(t.kids[0].word) + LoadConst(1) + [ADD, ST, LD_VALUE_STACK]
    case PreDec => LoadVar(t.kids[0].word) + LoadConst(1) + [SUB, ST, LD_VALUE_STACK]
    case Inc => LoadConst(t.kids[0].word) + LoadVar(t.kids[0].word) + LoadConst(1) + [ADD, ST, POP]
    case Dec => LoadConst(t.kids[0].word) + LoadVar(t.kids[0].word) + LoadConst(1) + [SUB, ST, POP]
  }

  function Code(t: Tree, address: bool): seq<Byte>
    requires WellFormed(t)
    decreases t, 1
  {
    CodeAll(t.kids, WantsAddress(t.kind)) + Own(t, address)
  }

  function CodeAll(ts: seq<Tree>, address: bool): seq<Byte>
    requires AllWellFormed(ts)
    decreases ts, 0
  {
    if ts == [] then [] else Code(ts[0], address) + CodeAll(ts[1..], false)
  }

  /** A line of statements: each value but the last is popped. */
  function CodeLine(ts: seq<Tree>): seq<Byte>
    requires AllWellFormed(ts)
  {
    if ts == [] then []
    else Code(ts[0], false) + (if |ts| > 1 then [POP] else []) + CodeLine(ts[1..])
  }

  // ---- running the code ----

  /** The text holds `code` at the program counter. */
  ghost predicate At(text: seq<Byte>, pc: nat, code: seq<Byte>) {
    pc + |code| <= |text| && text[pc..pc + |code|] == code
  }

  lemma AtParts(text: seq<Byte>, pc: nat, x: seq<Byte>, y: seq<Byte>)
    requires At(text, pc, x + y)
    ensures At(text, pc, x) && At(text, pc + |x|, y)
  {
    var s := text[pc..pc + |x + y|];
    assert text[pc..pc + |x|] == s[..|x|] == x;
    assert text[pc + |x|..pc + |x| + |y|] == s[|x|..] == y;
  }

  lemma RunStep(text: seq<Byte>, s: Vm, s': Vm)
    requires s.pc < |text| && Step(text, s) == Some(s')
    ensures Run(text, s) == Run(text, s')
  {}

  lemma RunStuck(text: seq<Byte>, s: Vm)
    requires s.pc < |text| && Step(text, s) == None
    ensures Run(text, s) == None
  {}

  lemma RunConst(text: seq<Byte>, s: Vm, w: Word)
    requires At(text, s.pc, LoadConst(w))
    ensures Run(text, s) == Run(text, Push(s.(pc := s.pc + 5), w))
  {
    assert text[s.pc..s.pc + 5] == LoadConst(w);
    assert text[s.pc] == LoadConst(w)[0];
    assert text[s.pc + 1..s.pc + 5] == LoadConst(w)[1..] == Bytes(w);
    GetBytes(w);
    RunStep(text, s, Push(s.(pc := s.pc + 5), w));
  }

  lemma RunVar(text: seq<Byte>, s: Vm, a: Word)
    requires At(text, s.pc, LoadVar(a))
    ensures Run(text, s) == if a in s.store then Run(text, Push(s.(pc := s.pc + 5), s.store[a])) else None
  {
    assert text[s.pc..s.pc + 5] == LoadVar(a);
    assert text[s.pc] == LoadVar(a)[0];
    assert text[s.pc + 1..s.pc + 5] == LoadVar(a)[1..] == Bytes(a);
    GetBytes(a);
    if a in s.store {
      RunStep(text, s, Push(s.(pc := s.pc + 5), s.store[a]));
    } else {
      RunStuck(text, s);
    }
  }

  lemma RunBinary(text: seq<Byte>, s: Vm, op: BinOp, base: seq<Word>, x: Word, y: Word)
    requires At(text, s.pc, [OpCode(op)]) && s.stack == base + [x, y]
    ensures Run(text, s) ==
      match Arith(op, x, y) case None => None case Some(w) => Run(text, Vm(s.pc + 1, base + [w], s.store))
  {
    assert text[s.pc] == text[s.pc..s.pc + 1][0];
    BinaryOfOpCode(op);
    assert s.stack[..|s.stack| - 2] == base;
    match Arith(op, x, y)
    case None => RunStuck(text, s);
    case Some(w) => RunStep(text, s, Vm(s.pc + 1, base + [w], s.store));
  }

  lemma RunStore(text: seq<Byte>, s: Vm, base: seq<Word>, a: Word, w: Word)
    requires At(text, s.pc, [ST]) && s.stack == base + [a, w]
    ensures Run(text, s) ==
      if a in s.store then Run(text, Vm(s.pc + 1, base + [a], s.store[a := w])) else None
  {
    assert text[s.pc] == text[s.pc..s.pc + 1][0];
    assert s.stack[..|s.stack| - 1] == base + [a];
    if a in s.store {
      RunStep(text, s, Vm(s.pc + 1, base + [a], s.store[a := w]));
    } else {
      RunStuck(text, s);
    }
  }

  lemma RunReload(text: seq<Byte>, s: Vm, base: seq<Word>, a: Word)
    requires At(text, s.pc, [LD_VALUE_STACK]) && s.stack == base + [a] && a in s.store
    ensures Run(text, s) == Run(text, Vm(s.pc + 1, base + [s.store[a]], s.store))
  {
    assert text[s.pc] == text[s.pc..s.pc + 1][0];
    assert s.stack[..|s.stack| - 1] == base;
    RunStep(text, s, Vm(s.pc + 1, base + [s.store[a]], s.store));
  }

  lemma RunPop(text: seq<Byte>, s: Vm, base: seq<Word>, w: Word)
    requires At(text, s.pc, [POP]) && s.stack == base + [w]
    ensures Run(text, s) == Run(text, Vm(s.pc + 1, base, s.store))
  {
    assert text[s.pc] == text[s.pc..s.pc + 1][0];
    assert s.stack[..|s.stack| - 1] == base;
    RunStep(text, s, Vm(s.pc + 1, base, s.store));
  }

  /** Where a run stands after some code: it goes on with the values pushed, or is stuck. */
  ghost predicate Reaches(text: seq<Byte>, s: Vm, len: nat, r: Option<(seq<Word>, Store)>) {
    Run(text, s) == if r.None? then None else Run(text, Vm(s.pc + len, s.stack + r.value.0, r.value.1))
  }

  function One(r: Option<(Word, Store)>): Option<(seq<Word>, Store)> {
    if r.None? then None else Some(([r.value.0], r.value.1))
  }

  /** A variable's new value: load, add or subtract one, store. */
  lemma RunBump(text: seq<Byte>, s: Vm, base: seq<Word>, a: Word, op: BinOp, d: int)
    requires (op == Add && d == 1) || (op == Sub && d == -1)
    requires At(text, s.pc, LoadVar(a) + LoadConst(1) + [OpCode(op), ST]) && s.stack == base + [a]
    ensures Run(text, s) == if a in s.store
      then Run(text, Vm(s.pc + 12, base + [a], s.store[a := Plus(s.store[a], d)])) else None
  {
    hide Run, Step, At;
    AtParts(text, s.pc, LoadVar(a) + LoadConst(1), [OpCode(op), ST]);
    AtParts(text, s.pc, LoadVar(a), LoadConst(1));
    assert [OpCode(op), ST] == [OpCode(op)] + [ST];
    AtParts(text, s.pc + 10, [OpCode(op)], [ST]);
    RunVar(text, s, a);
    if a in s.store {
      var v := s.store[a];
      var s1 := Push(s.(pc := s.pc + 5), v);
      RunConst(text, s1, 1);
      var s2 := Push(s1.(pc := s1.pc + 5), 1);
      assert s2.stack == (base + [a]) + [v, 1];
      RunBinary(text, s2, op, base + [a], v, 1);
      var s3 := Vm(s2.pc + 1, base + [a] + [Plus(v, d)], s.store);
      assert s3.stack == base + [a, Plus(v, d)];
      RunStore(text, s3, base, a, Plus(v, d));
    }
  }

  lemma Regroup(x: seq<Byte>, y: seq<Byte>, z: seq<Byte>, o: Byte, p: Byte, q: Byte)
    ensures y + z + [o, p, q] == y + z + [o, p] + [q]
    ensures x + y + z + [o, p, q] == x + (y + z + [o, p] + [q])
  {}

  lemma RunPre(text: seq<Byte>, s: Vm, t: Tree, base: seq<Word>, a: Word, op: BinOp, d: int)
    requires (op == Add && d == 1 && t.kind == PreInc) || (op == Sub && d == -1 && t.kind == PreDec)
    requires WellFormed(t) && a == t.kids[0].word && At(text, s.pc, Own(t, false)) && s.stack == base + [a]
    ensures Run(text, s) == if a in s.store
      then Run(text, Vm(s.pc + 13, base + [Plus(s.store[a], d)], s.store[a := Plus(s.store[a], d)])) else None
  {
    hide Run, Step, At;
    var front := LoadVar(a) + LoadConst(1) + [OpCode(op), ST];
    Regroup([], LoadVar(a), LoadConst(1), OpCode(op), ST, LD_VALUE_STACK);
    assert Own(t, false) == front + [LD_VALUE_STACK];
    AtParts(text, s.pc, front, [LD_VALUE_STACK]);
    RunBump(text, s, base, a, op, d);
    if a in s.store {
      RunReload(text, Vm(s.pc + 12, base + [a], s.store[a := Plus(s.store[a], d)]), base, a);
    }
  }

  lemma RunPost(text: seq<Byte>, s: Vm, t: Tree, a: Word, op: BinOp, d: int)
    requires (op == Add && d == 1 && t.kind == Inc) || (op == Sub && d == -1 && t.kind == Dec)
    requires WellFormed(t) && a == t.kids[0].word && At(text, s.pc, Own(t, false)) && a in s.store
    ensures Run(text, s) == Run(text, Vm(s.pc + 18, s.stack, s.store[a := Plus(s.store[a], d)]))
  {
    hide Run, Step, At;
    var bump := LoadVar(a) + LoadConst(1) + [OpCode(op), ST];
    Regroup(LoadConst(a), LoadVar(a), LoadConst(1), OpCode(op), ST, POP);
    assert Own(t, false) == LoadConst(a) + (bump + [POP]);
    AtParts(text, s.pc, LoadConst(a), bump + [POP]);
    AtParts(text, s.pc + 5, bump, [POP]);
    RunConst(text, s, a);
    RunBump(text, Push(s.(pc := s.pc + 5), a), s.stack, a, op, d);
    RunPop(text, Vm(s.pc + 17, s.stack + [a], s.store[a := Plus(s.store[a], d)]), s.stack, a);
  }

  lemma RunAssign(text: seq<Byte>, s: Vm, base: seq<Word>, a: Word, w: Word)
    requires At(text, s.pc, [ST, LD_VALUE_STACK]) && s.stack == base + [a, w]
    ensures Run(text, s) == if a in s.store then Run(text, Vm(s.pc + 2, base + [w], s.store[a := w])) else None
  {
    hide Run, Step, At;
    assert [ST, LD_VALUE_STACK] == [ST] + [LD_VALUE_STACK];
    AtParts(text, s.pc, [ST], [LD_VALUE_STACK]);
    RunStore(text, s, base, a, w);
    if a in s.store {
      RunReload(text, Vm(s.pc + 1, base + [a], s.store[a := w]), base, a);
    }
  }

  /** What the operands of a node have left behind before its own code runs. */
  ghost predicate Ready(t: Tree, v: seq<Word>, st: Store)
    requires WellFormed(t)
  {
    && |v| == |t.kids|
    && (WantsAddress(t.kind) ==> v[0] == t.kids[0].word)
    && (t.kind.Inc? || t.kind.Dec? ==> t.kids[0].word in st && st[t.kids[0].word] == v[0])
  }

  /** The own code of a node applies its operator to the operand values on the stack. */
  lemma RunOwn(text: seq<Byte>, s: Vm, t: Tree, base: seq<Word>, v: seq<Word>)
    requires WellFormed(t) && At(text, s.pc, Own(t, false)) && Ready(t, v, s.store) && s.stack == base + v
    ensures Apply(t, v, s.store).None? ==> Run(text, s) == None
    ensures Apply(t, v, s.store).Some? ==>
      var (w, st) := Apply(t, v, s.store).value; (Run(text, s) == Run(text, Vm(s.pc + |Own(t, false)|, base + [w], st)))
  {
    hide Run, Step, At;
    match t.kind
    case Id =>
      assert base + v == base;
      RunVar(text, s, t.word);
    case Value =>
      assert base + v == base;
      RunConst(text, s, t.word);
    case Bin(op) =>
      assert v == [v[0], v[1]];
      RunBinary(text, s, op, base, v[0], v[1]);
    case Bitwise =>
      assert v == [v[0]];
      RunNot(text, s, base, v[0]);
    case Assign =>
      assert v == [v[0], v[1]];
      RunAssign(text, s, base, v[0], v[1]);
    case PreInc =>
      assert v == [v[0]];
      RunPre(text, s, t, base, v[0], Add, 1);
    case PreDec =>
      assert v == [v[0]];
      RunPre(text, s, t, base, v[0], Sub, -1);
    case Inc =>
      assert v == [v[0]];
      RunPost(text, s, t, t.kids[0].word, Add, 1);
    case Dec =>
      assert v == [v[0]];
      RunPost(text, s, t, t.kids[0].word, Sub, -1);
  }

  lemma RunNot(text: seq<Byte>, s: Vm, base: seq<Word>, x: Word)
    requires At(text, s.pc, [BITWISE]) && s.stack == base + [x]
    ensures Run(text, s) == Run(text, Vm(s.pc + 1, base + [BitNot(x)], s.store))
  {
    assert text[s.pc] == text[s.pc..s.pc + 1][0];
    assert s.stack[..|s.stack| - 1] == base;
    RunStep(text, s, Vm(s.pc + 1, base + [BitNot(x)], s.store));
  }

  lemma OperandsReady(t: Tree, st: Store)
    requires WellFormed(t) && EvalAll(t.kids, WantsAddress(t.kind), st).Some?
    ensures var r := EvalAll(t.kids, WantsAddress(t.kind), st).value; Ready(t, r.0, r.1)
  {
    if t.kind.Inc? || t.kind.Dec? {
      var x := t.kids[0];
      assert t.kids[1..] == [];
      assert EvalAll([], false, st) == Some(([], st));
      assert Eval(x, st) == Apply(x, [], st);
    }
  }

  /** Running the code of an expression pushes its value and updates the variables as
      direct evaluation does, and is stuck exactly when evaluation is undefined. */
  lemma {:induction false} RunCode(text: seq<Byte>, s: Vm, t: Tree)
    requires WellFormed(t) && At(text, s.pc, Code(t, false))
    ensures Reaches(text, s, |Code(t, false)|, One(Eval(t, s.store)))
    decreases t, 1
  {
    hide Run, Step, At, Own, Apply, EvalAll, CodeAll;
    var address := WantsAddress(t.kind);
    var operands := CodeAll(t.kids, address);
    AtParts(text, s.pc, operands, Own(t, false));
    RunCodeAll(text, s, t.kids, address);
    var r := EvalAll(t.kids, address, s.store);
    if r.Some? {
      OperandsReady(t, s.store);
      RunOwn(text, Vm(s.pc + |operands|, s.stack + r.value.0, r.value.1), t, s.stack, r.value.0);
    }
  }

  lemma AddressCode(t: Tree)
    requires WellFormed(t) && t.kind == Id
    ensures Code(t, true) == LoadConst(t.word)
  {
    assert CodeAll(t.kids, false) == [];
  }

  lemma {:induction false} RunCodeAll(text: seq<Byte>, s: Vm, ts: seq<Tree>, address: bool)
    requires AllWellFormed(ts) && At(text, s.pc, CodeAll(ts, address))
    requires address ==> ts != [] && ts[0].kind == Id
    ensures Reaches(text, s, |CodeAll(ts, address)|, EvalAll(ts, address, s.store))
    decreases ts, 0
  {
    hide Run, Step, At, Eval, Code, Own, Apply;
    if ts == [] {
      assert s.stack + [] == s.stack;
    } else {
      var first := Code(ts[0], address);
      AtParts(text, s.pc, first, CodeAll(ts[1..], false));
      var w := if address then Some((ts[0].word, s.store)) else Eval(ts[0], s.store);
      if address {
        AddressCode(ts[0]);
        RunConst(text, s, ts[0].word);
      } else {
        RunCode(text, s, ts[0]);
      }
      if w.Some? {
        var s1 := Vm(s.pc + |first|, s.stack + [w.value.0], w.value.1);
        RunCodeAll(text, s1, ts[1..], false);
        var v := EvalAll(ts[1..], false, s1.store);
        if v.Some? {
          assert s1.stack + v.value.0 == s.stack + ([w.value.0] + v.value.0);
        }
      }
    }
  }

  /** A line of statements started on an empty stack: each statement but the last leaves
      nothing behind, and the last one leaves its value in slot 0. */
  lemma {:induction false} RunLine(text: seq<Byte>, s: Vm, ts: seq<Tree>, last: Word)
    requires AllWellFormed(ts) && ts != [] && At(text, s.pc, CodeLine(ts)) && s.stack == []
    ensures Reaches(text, s, |CodeLine(ts)|, One(EvalLine(ts, last, s.store)))
    decreases |ts|
  {
    hide Run, Step, At, Eval, Code, Own, Apply, WellFormed;
    var first, rest := Code(ts[0], false), CodeLine(ts[1..]);
    var r := Eval(ts[0], s.store);
    if |ts| == 1 {
      assert CodeLine(ts) == first;
      RunCode(text, s, ts[0]);
    } else {
      assert CodeLine(ts) == first + ([POP] + rest);
      AtParts(text, s.pc, first, [POP] + rest);
      AtParts(text, s.pc + |first|, [POP], rest);
      RunCode(text, s, ts[0]);
      if r.Some? {
        assert [] + [r.value.0] == [r.value.0];
        RunPop(text, Vm(s.pc + |first|, [r.value.0], r.value.1), [], r.value.0);
        RunLine(text, Vm(s.pc + |first| + 1, [], r.value.1), ts[1..], r.value.0);
      }
    }
  }

  /** The rest of the text segment holds zero, the no-op. */
  lemma {:induction false} RunNoops(text: seq<Byte>, s: Vm)
    requires s.pc <= |text| && forall k :: s.pc <= k < |text| ==> text[k] == NOOP
    ensures Run(text, s) == Some(s.(pc := |text|))
    decreases |text| - s.pc
  {
    if s.pc < |text| {
      RunStep(text, s, s.(pc := s.pc + 1));
      RunNoops(text, s.(pc := s.pc + 1));
    }
  }

  /** Compiler correctness: for every line of statements whose code fits the text segment,
      the machine finishes exactly when direct evaluation is defined, with the same
      variables and the value of the last statement alone on the stack. */
  lemma CompiledLineIsCorrect(text: seq<Byte>, ts: seq<Tree>, st: Store)
    requires AllWellFormed(ts) && ts != [] && At(text, 0, CodeLine(ts))
    requires forall k :: |CodeLine(ts)| <= k < |text| ==> text[k] == NOOP
    ensures Run(text, Vm(0, [], st)) ==
      match EvalLine(ts, 0, st) case None => None case Some((w, st')) => Some(Vm(|text|, [w], st'))
  {
    RunLine(text, Vm(0, [], st), ts, 0);
    var r := EvalLine(ts, 0, st);
    if r.Some? {
      assert [] + [r.value.0] == [r.value.0];
      RunNoops(text, Vm(|CodeLine(ts)|, [r.value.0], r.value.1));
    }
  }
}
