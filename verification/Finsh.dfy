/** The finsh compiler and machine over their global tables (finsh_compiler.c, finsh_vm.c). */
module Finsh {
  import opened FinshVm
  import opened FinshTree

  const NONE := -1   // a null node pointer

  /** An entry of the node table. `address` is the FINSH_IDTYPE_ADDRESS bit, `dword` tells
      whether data_type is FINSH_DATA_TYPE_DWORD. */
  datatype Node = Node(kind: Kind, word: Word, address: bool, dword: bool, child: int, sibling: int)

  /** Node i is the first of a chain of siblings that represent ts. */
  ghost predicate Linked(n: seq<Node>, i: int, ts: seq<Tree>)
    decreases ts
  {
    if ts == [] then i == NONE
    else
      && i == ts[0].id < |n| && n[i].kind == ts[0].kind && n[i].word == ts[0].word
      && Linked(n, n[i].child, ts[0].kids) && Linked(n, n[i].sibling, ts[1..])
  }

  ghost function Ids(ts: seq<Tree>): set<int>
    decreases ts
  {
    if ts == [] then {} else {ts[0].id} + Ids(ts[0].kids) + Ids(ts[1..])
  }

  /** No node of the table is used twice. */
  ghost predicate Separate(ts: seq<Tree>)
    decreases ts
  {
    ts == [] ||
    (ts[0].id !in Ids(ts[0].kids) && ts[0].id !in Ids(ts[1..]) && Ids(ts[0].kids) !! Ids(ts[1..])
     && Separate(ts[0].kids) && Separate(ts[1..]))
  }

  /** Before type checking no node is marked as an address. */
  ghost predicate Unmarked(n: seq<Node>, ts: seq<Tree>) {
    forall j :: j in Ids(ts) ==> 0 <= j < |n| && !n[j].address
  }

  /** After it, exactly the operands wanted by address are, and all data is 32 bits wide. */
  ghost predicate Checked(n: seq<Node>, ts: seq<Tree>, address: bool)
    decreases ts
  {
    ts == [] ||
    (ts[0].id < |n| && n[ts[0].id].dword && n[ts[0].id].address == address
     && Checked(n, ts[0].kids, WantsAddress(ts[0].kind)) && Checked(n, ts[1..], false))
  }

  predicate SameShape(x: Node, y: Node) {
    x.kind == y.kind && x.word == y.word && x.child == y.child && x.sibling == y.sibling
  }

  lemma {:induction false} LinkedFrame(n: seq<Node>, n': seq<Node>, i: int, ts: seq<Tree>)
    requires Linked(n, i, ts) && |n| == |n'|
    requires forall j :: j in Ids(ts) && 0 <= j < |n| ==> SameShape(n[j], n'[j])
    ensures Linked(n', i, ts)
    decreases ts
  {
    if ts != [] {
      LinkedFrame(n, n', n[i].child, ts[0].kids);
      LinkedFrame(n, n', n[i].sibling, ts[1..]);
    }
  }

  lemma {:induction false} CheckedFrame(n: seq<Node>, n': seq<Node>, ts: seq<Tree>, address: bool)
    requires Checked(n, ts, address) && |n| == |n'|
    requires forall j :: j in Ids(ts) && 0 <= j < |n| ==> n'[j].dword == n[j].dword && n'[j].address == n[j].address
    ensures Checked(n', ts, address)
    decreases ts
  {
    if ts != [] {
      CheckedFrame(n, n', ts[0].kids, WantsAddress(ts[0].kind));
      CheckedFrame(n, n', ts[1..], false);
    }
  }

  /** Type checking changes only annotations, and only of the nodes in `ids`. */
  ghost predicate Frame(n: seq<Node>, n': seq<Node>, ids: set<int>) {
    && |n| == |n'|
    && (forall j :: 0 <= j < |n| ==> SameShape(n[j], n'[j]))
    && (forall j :: 0 <= j < |n| && j !in ids ==> n'[j] == n[j])
  }

  lemma FrameSelf(n: seq<Node>)
    ensures Frame(n, n, {})
  {}

  lemma FrameKeeps(n: seq<Node>, n': seq<Node>, ids: set<int>, i: int, ts: seq<Tree>)
    requires Frame(n, n', ids) && Linked(n, i, ts) && ids !! Ids(ts)
    ensures Linked(n', i, ts)
    ensures Unmarked(n, ts) ==> Unmarked(n', ts)
  {
    LinkedFrame(n, n', i, ts);
  }

  lemma FrameChecked(n: seq<Node>, n': seq<Node>, ids: set<int>, ts: seq<Tree>, address: bool)
    requires Frame(n, n', ids) && Checked(n, ts, address) && ids !! Ids(ts)
    ensures Checked(n', ts, address)
  {
    CheckedFrame(n, n', ts, address);
  }

  lemma FrameNode(n: seq<Node>, n': seq<Node>, i: int)
    requires |n| == |n'| && 0 <= i < |n| && forall j :: 0 <= j < |n| ==> SameShape(n[j], n'[j])
    ensures n'[i].kind == n[i].kind && n'[i].word == n[i].word
    ensures n'[i].child == n[i].child && n'[i].sibling == n[i].sibling
  {}

  function Annotated(n: seq<Node>, i: int, isAddr: bool): seq<Node>
    requires 0 <= i < |n| && n[i].child < |n| && (n[i].child != NONE ==> n[i].child >= 0)
  {
    n[i := n[i].(address := n[i].address || isAddr,
      dword := if n[i].child != NONE then n[n[i].child].dword else n[i].kind.Id? || n[i].kind.Value? || n[i].dword)]
  }

  /** The last step for one node, after its operands and its siblings. */
  lemma NodeChecked(n0: seq<Node>, n1: seq<Node>, n2: seq<Node>, n3: seq<Node>, i: int, ts: seq<Tree>, isAddr: bool)
    requires ts != [] && AllWellFormed(ts) && Separate(ts) && Linked(n0, i, ts) && !n0[i].address
    requires Frame(n0, n1, Ids(ts[0].kids)) && Frame(n1, n2, Ids(ts[1..]))
    requires Linked(n2, n0[i].child, ts[0].kids) && Linked(n2, n0[i].sibling, ts[1..])
    requires Checked(n2, ts[0].kids, WantsAddress(ts[0].kind)) && Checked(n2, ts[1..], false)
    requires n2[i].child < |n2| && (n2[i].child != NONE ==> n2[i].child >= 0) && n3 == Annotated(n2, i, isAddr)
    ensures Linked(n3, i, ts) && Checked(n3, ts, isAddr) && Frame(n0, n3, Ids(ts))
  {
    var kids, rest := ts[0].kids, ts[1..];
    FrameNode(n0, n1, i);
    FrameNode(n1, n2, i);
    LinkedFrame(n2, n3, n0[i].child, kids);
    LinkedFrame(n2, n3, n0[i].sibling, rest);
    CheckedFrame(n2, n3, kids, WantsAddress(ts[0].kind));
    CheckedFrame(n2, n3, rest, false);
    assert WellFormed(ts[0]);
    assert n2[i] == n0[i];
    forall j | 0 <= j < |n0|
      ensures SameShape(n0[j], n3[j])
    {
      FrameNode(n0, n1, j);
      FrameNode(n1, n2, j);
    }
  }

  /** An operand wanted by address is a variable. */
  predicate AddressOk(ts: seq<Tree>, address: bool) { address && ts != [] ==> ts[0].kind == Id }

  /** The operands of the first node, and its siblings. */
  lemma Parts(n: seq<Node>, i: int, ts: seq<Tree>)
    requires ts != [] && Linked(n, i, ts) && Separate(ts) && Unmarked(n, ts)
    ensures 0 <= i < |n| && Linked(n, n[i].child, ts[0].kids) && Linked(n, n[i].sibling, ts[1..])
    ensures Separate(ts[0].kids) && Separate(ts[1..]) && Ids(ts[0].kids) !! Ids(ts[1..])
    ensures Unmarked(n, ts[0].kids) && Unmarked(n, ts[1..])
  {
    assert ts[0].id in Ids(ts) && Ids(ts[0].kids) <= Ids(ts) && Ids(ts[1..]) <= Ids(ts);
  }

  lemma KidsOk(ts: seq<Tree>, address: bool)
    requires AllWellFormed(ts) && AddressOk(ts, address) && ts != []
    ensures AllWellFormed(ts[0].kids) && AddressOk(ts[0].kids, WantsAddress(ts[0].kind))
    ensures AllWellFormed(ts[1..]) && AddressOk(ts[1..], false)
    ensures ts[0].kids != [] ==> !address
  {}

  /** The code was appended to the text at p0; nothing behind it was touched. */
  ghost predicate Wrote(t0: seq<Byte>, p0: nat, t: seq<Byte>, p: nat, code: seq<Byte>) {
    p == p0 + |code| <= |t| == |t0| && t[..p] == t0[..p0] + code && t[p..] == t0[p..]
  }

  lemma WroteLength(t0: seq<Byte>, p0: nat, t: seq<Byte>, p: nat, code: seq<Byte>)
    requires Wrote(t0, p0, t, p, code)
    ensures p == p0 + |code| <= |t| == |t0|
  {}

  lemma WroteNothing(t: seq<Byte>, p: nat)
    requires p <= |t|
    ensures Wrote(t, p, t, p, [])
  {}

  lemma WroteBoth(t0: seq<Byte>, p0: nat, t1: seq<Byte>, p1: nat, t2: seq<Byte>, p2: nat, x: seq<Byte>, y: seq<Byte>)
    requires Wrote(t0, p0, t1, p1, x) && Wrote(t1, p1, t2, p2, y)
    ensures Wrote(t0, p0, t2, p2, x + y)
  {
    assert t2[p2..] == t1[p1..][|y|..] == t0[p1..][|y|..] == t0[p2..];
  }

  lemma FirstOfLine(n: seq<Node>, i: int, ts: seq<Tree>)
    requires Linked(n, i, ts) && Separate(ts) && i != NONE
    ensures ts != [] && i == ts[0].id < |n|
  {}

  lemma EndOfLine(n: seq<Node>, ts: seq<Tree>)
    requires Linked(n, NONE, ts)
    ensures ts == []
  {}

  /** Clearing the sibling link of the first statement leaves it and the others in place. */
  lemma CutOff(n: seq<Node>, i: int, ts: seq<Tree>)
    requires ts != [] && Linked(n, i, ts) && Checked(n, ts, false) && Separate(ts) && AllWellFormed(ts)
    ensures 0 <= i < |n|
    ensures var n' := n[i := n[i].(sibling := NONE)];
      (Linked(n', i, [ts[0]]) && Checked(n', [ts[0]], false) && AllWellFormed([ts[0]])
      && Linked(n', n[i].sibling, ts[1..]) && Checked(n', ts[1..], false) && Separate(ts[1..]) && AllWellFormed(ts[1..]))
    ensures n[i].sibling != NONE <==> |ts| > 1
  {
    hide WellFormed;
    var n' := n[i := n[i].(sibling := NONE)];
    LinkedFrame(n, n', n[i].child, ts[0].kids);
    LinkedFrame(n, n', n[i].sibling, ts[1..]);
    CheckedFrame(n, n', ts[0].kids, WantsAddress(ts[0].kind));
    CheckedFrame(n, n', ts[1..], false);
    assert [ts[0]][1..] == [];
    assert |ts| > 1 ==> ts[1..][0] == ts[1];
  }

  lemma EmptyLine()
    ensures CodeLine([]) == []
  {}

  lemma NoAddress(ts: seq<Tree>)
    ensures AddressOk(ts, false)
  {}

  lemma CodeLineParts(ts: seq<Tree>)
    requires AllWellFormed(ts) && ts != []
    ensures CodeLine(ts) == Code(ts[0], false) + (if |ts| > 1 then [POP] else []) + CodeLine(ts[1..])
  {}

  lemma OneCode(t: Tree)
    requires WellFormed(t)
    ensures CodeAll([t], false) == Code(t, false)
  {
    assert CodeAll([t][1..], false) == [];
  }

  /** The finished text: the code, then no-ops. */
  lemma WroteAll(t0: seq<Byte>, t: seq<Byte>, p: nat, code: seq<Byte>)
    requires Wrote(t0, 0, t, p, code) && t0 == seq(TEXT_MAX, _ => 0)
    ensures At(t, 0, code) && |t| == TEXT_MAX
    ensures forall k :: |code| <= k < |t| ==> t[k] == NOOP
  {
    assert t[0..|code|] == t[..p] == code;
    forall k | |code| <= k < |t|
      ensures t[k] == NOOP
    {
      assert t[k] == t[p..][k - p] == t0[p..][k - p];
    }
  }

  /** How a run of the compiled line ends, also for the empty line. */
  lemma LineResult(t: seq<Byte>, ts: seq<Tree>, st: Store)
    requires AllWellFormed(ts) && At(t, 0, CodeLine(ts)) && |t| == TEXT_MAX
    requires forall k :: |CodeLine(ts)| <= k < |t| ==> t[k] == NOOP
    ensures Run(t, Vm(0, [], st)).Some? <==> EvalLine(ts, 0, st).Some?
    ensures EvalLine(ts, 0, st).Some? ==>
      Run(t, Vm(0, [], st)) == Some(Vm(|t|, if ts == [] then [] else [EvalLine(ts, 0, st).value.0], EvalLine(ts, 0, st).value.1))
  {
    hide At, Run, WellFormed, Code;
    if ts == [] {
      RunNoops(t, Vm(0, [], st));
    } else {
      CompiledLineIsCorrect(t, ts, st);
    }
  }

  class Shell {
    const nodes: array<Node>
    const text: array<Byte>
    const stack: array<Word>
    var compilePc: nat
    var sp: nat
    var pc: nat
    var store: Store

    ghost predicate Valid()
      reads this
    {
      text.Length == TEXT_MAX && stack.Length == STACK_MAX
    }

    constructor (table: array<Node>, variables: Store)
      ensures Valid() && fresh(text) && fresh(stack) && nodes == table && store == variables
    {
      nodes := table;
      text := new Byte[TEXT_MAX](_ => 0);
      stack := new Word[STACK_MAX](_ => 0);
      compilePc, sp, pc := 0, 0, 0;
      store := variables;
    }

    /** finsh_type_check: operands, then siblings, then the node itself. */
    method TypeCheck(i: int, isAddr: bool, ghost ts: seq<Tree>)
      requires Linked(nodes[..], i, ts) && Separate(ts) && Unmarked(nodes[..], ts)
      requires AllWellFormed(ts) && AddressOk(ts, isAddr)
      modifies nodes
      ensures Linked(nodes[..], i, ts) && Checked(nodes[..], ts, isAddr)
      ensures Frame(old(nodes[..]), nodes[..], Ids(ts))
      decreases ts
    {
      hide SameShape;
      FrameSelf(nodes[..]);
      if i != NONE {
        ghost var kids, rest, n0 := ts[0].kids, ts[1..], nodes[..];
        KidsOk(ts, isAddr);
        Parts(nodes[..], i, ts);
        if WantsAddress(nodes[i].kind) {
          TypeCheck(nodes[i].child, true, kids);
        } else {
          TypeCheck(nodes[i].child, isAddr, kids);
        }
        ghost var n1 := nodes[..];
        FrameKeeps(n0, n1, Ids(kids), n0[i].sibling, rest);
        FrameNode(n0, n1, i);
        assert nodes[i].sibling == n0[i].sibling;
        TypeCheck(nodes[i].sibling, false, rest);
        ghost var n2 := nodes[..];
        FrameKeeps(n1, n2, Ids(rest), n0[i].child, kids);
        FrameChecked(n1, n2, Ids(rest), kids, WantsAddress(ts[0].kind));
        FrameNode(n1, n2, i);
        Annotate(i, isAddr);
        NodeChecked(n0, n1, n2, nodes[..], i, ts, isAddr);
      }
    }

    /** The attributes of one node; its data type is that of its first operand. */
    method Annotate(i: int, isAddr: bool)
      requires 0 <= i < nodes.Length && nodes[i].child < nodes.Length && (nodes[i].child != NONE ==> nodes[i].child >= 0)
      requires nodes[i].child != i
      modifies nodes
      ensures nodes[..] == Annotated(old(nodes[..]), i, isAddr)
    {
      nodes[i] := nodes[i].(address := nodes[i].address || isAddr);
      if nodes[i].child != NONE {
        nodes[i] := nodes[i].(dword := nodes[nodes[i].child].dword);
      } else if nodes[i].kind.Id? || nodes[i].kind.Value? {
        nodes[i] := nodes[i].(dword := true);
      }
    }

    // ---- emitting code ----

    /** finsh_code_byte. */
    method CodeByte(b: Byte)
      requires Valid() && compilePc < TEXT_MAX
      modifies this`compilePc, text
      ensures Wrote(old(text[..]), old(compilePc), text[..], compilePc, [b])
    {
      text[compilePc] := b;
      compilePc := compilePc + 1;
    }

    /** One opcode and a 32-bit operand (finsh_code_dword). */
    method CodeDword(b: Byte, w: Word)
      requires Valid() && compilePc + 5 <= TEXT_MAX
      modifies this`compilePc, text
      ensures Wrote(old(text[..]), old(compilePc), text[..], compilePc, [b] + Bytes(w))
    {
      var d := Bytes(w);
      text[compilePc] := b;
      text[compilePc + 1] := d[0];
      text[compilePc + 2] := d[1];
      text[compilePc + 3] := d[2];
      text[compilePc + 4] := d[3];
      compilePc := compilePc + 5;
      assert text[..compilePc] == old(text[..compilePc]) + [b, d[0], d[1], d[2], d[3]];
      assert d == [d[0], d[1], d[2], d[3]];
    }

    /** Three opcodes. */
    method CodeThree(b: Byte, c: Byte, d: Byte)
      requires Valid() && compilePc + 3 <= TEXT_MAX
      modifies this`compilePc, text
      ensures Wrote(old(text[..]), old(compilePc), text[..], compilePc, [b, c, d])
    {
      text[compilePc] := b;
      text[compilePc + 1] := c;
      text[compilePc + 2] := d;
      compilePc := compilePc + 3;
    }

    /** The load, load, operate, store sequence of the increment operators. */
    method CodeBump(a: Word, op: Byte, end: Byte)
      requires Valid() && compilePc + 13 <= TEXT_MAX
      modifies this`compilePc, text
      ensures Wrote(old(text[..]), old(compilePc), text[..], compilePc, LoadVar(a) + LoadConst(1) + [op, ST, end])
    {
      hide Wrote;
      ghost var t0, p0 := text[..], compilePc;
      CodeDword(LD_VALUE, a);
      ghost var t1, p1 := text[..], compilePc;
      WroteLength(t0, p0, t1, p1, LoadVar(a));
      CodeDword(LD, 1);
      ghost var t2, p2 := text[..], compilePc;
      WroteLength(t1, p1, t2, p2, LoadConst(1));
      WroteBoth(t0, p0, t1, p1, t2, p2, LoadVar(a), LoadConst(1));
      CodeThree(op, ST, end);
      WroteBoth(t0, p0, t2, p2, text[..], compilePc, LoadVar(a) + LoadConst(1), [op, ST, end]);
    }

    /** What finsh_compile emits for a node after its operands. */
    method EmitOwn(i: int, ghost t: Tree, ghost address: bool)
      requires Valid() && WellFormed(t) && (address ==> t.kind == Id) && compilePc + |Own(t, address)| <= TEXT_MAX
      requires 0 <= i < nodes.Length && nodes[i].kind == t.kind && nodes[i].word == t.word
      requires nodes[i].dword && nodes[i].address == address
      requires t.kids != [] ==> 0 <= nodes[i].child < nodes.Length && nodes[nodes[i].child].kind == t.kids[0].kind
      requires t.kids != [] ==> nodes[nodes[i].child].word == t.kids[0].word && nodes[nodes[i].child].dword
      modifies this`compilePc, text
      ensures Wrote(old(text[..]), old(compilePc), text[..], compilePc, Own(t, address))
    {
      hide Wrote;
      ghost var t0, p0 := text[..], compilePc;
      match nodes[i].kind {
        case Id =>
          CodeDword(if nodes[i].address then LD else LD_VALUE, nodes[i].word);
        case Value =>
          CodeDword(LD, nodes[i].word);
        case Bin(op) =>
          if nodes[i].dword { CodeByte(OpCode(op)); }
        case Bitwise =>
          if nodes[i].dword { CodeByte(BITWISE); }
        case Assign =>
          if nodes[nodes[i].child].kind.Id? && nodes[nodes[i].child].dword {
            CodeByte(ST);
            ghost var t1, p1 := text[..], compilePc;
            WroteLength(t0, p0, t1, p1, [ST]);
            CodeByte(LD_VALUE_STACK);
            WroteBoth(t0, p0, t1, p1, text[..], compilePc, [ST], [LD_VALUE_STACK]);
            assert [ST] + [LD_VALUE_STACK] == [ST, LD_VALUE_STACK];
          }
        case PreInc =>
          if nodes[nodes[i].child].kind.Id? && nodes[i].dword {
            CodeBump(nodes[nodes[i].child].word, ADD, LD_VALUE_STACK);
          }
        case PreDec =>
          if nodes[nodes[i].child].kind.Id? && nodes[i].dword {
            CodeBump(nodes[nodes[i].child].word, SUB, LD_VALUE_STACK);
          }
        case Inc =>
          if nodes[nodes[i].child].kind.Id? && nodes[i].dword {
            CodePost(nodes[nodes[i].child].word, ADD);
          }
        case Dec =>
          if nodes[nodes[i].child].kind.Id? && nodes[i].dword {
            CodePost(nodes[nodes[i].child].word, SUB);
          }
      }
    }

    method CodePost(a: Word, op: Byte)
      requires Valid() && compilePc + 18 <= TEXT_MAX
      modifies this`compilePc, text
      ensures Wrote(old(text[..]), old(compilePc), text[..], compilePc,
                    LoadConst(a) + LoadVar(a) + LoadConst(1) + [op, ST, POP])
    {
      hide Wrote;
      ghost var t0, p0 := text[..], compilePc;
      CodeDword(LD, a);
      ghost var t1, p1 := text[..], compilePc;
      WroteLength(t0, p0, t1, p1, LoadConst(a));
      CodeBump(a, op, POP);
      ghost var bump := LoadVar(a) + LoadConst(1) + [op, ST, POP];
      WroteBoth(t0, p0, t1, p1, text[..], compilePc, LoadConst(a), bump);
      assert LoadConst(a) + bump == LoadConst(a) + LoadVar(a) + LoadConst(1) + [op, ST, POP];
    }

    /** finsh_compile: the operands, the node itself, then its siblings. */
    method Compile(i: int, ghost ts: seq<Tree>, ghost address: bool)
      requires Valid() && Linked(nodes[..], i, ts) && Checked(nodes[..], ts, address)
      requires AllWellFormed(ts) && AddressOk(ts, address) && compilePc + |CodeAll(ts, address)| <= TEXT_MAX
      modifies this`compilePc, text
      ensures Wrote(old(text[..]), old(compilePc), text[..], compilePc, CodeAll(ts, address))
      decreases ts
    {
      hide Wrote, Own, WellFormed;
      ghost var t0, p0 := text[..], compilePc;
      if i != NONE {
        ghost var kids, rest, wants := ts[0].kids, ts[1..], WantsAddress(ts[0].kind);
        KidsOk(ts, address);
        if nodes[i].child != NONE {
          Compile(nodes[i].child, kids, wants);
        } else {
          WroteNothing(t0, p0);
        }
        ghost var t1, p1 := text[..], compilePc;
        WroteLength(t0, p0, t1, p1, CodeAll(kids, wants));
        EmitOwn(i, ts[0], address);
        ghost var t2, p2 := text[..], compilePc;
        WroteLength(t1, p1, t2, p2, Own(ts[0], address));
        WroteBoth(t0, p0, t1, p1, t2, p2, CodeAll(kids, wants), Own(ts[0], address));
        if nodes[i].sibling != NONE {
          Compile(nodes[i].sibling, rest, false);
        } else {
          WroteNothing(t2, p2);
        }
        WroteBoth(t0, p0, t2, p2, text[..], compilePc, Code(ts[0], address), CodeAll(rest, false));
      } else {
        WroteNothing(t0, p0);
      }
    }

    /** Clear the text segment; only slot 0 of the stack is cleared with it. */
    method ClearText()
      requires Valid()
      modifies text, stack
      ensures text[..] == seq(TEXT_MAX, _ => 0) && stack[0] == 0
    {
      for k := 0 to TEXT_MAX
        invariant forall j :: 0 <= j < k ==> text[j] == 0
      {
        text[k] := 0;
      }
      stack[0] := 0;
    }

    /** The rest of a line, starting at statement i, is still to be compiled behind `done`. */
    ghost predicate Pending(i: int, rest: seq<Tree>, line: seq<Byte>, t0: seq<Byte>, done: seq<Byte>)
      reads this, nodes, text
    {
      && Linked(nodes[..], i, rest) && Checked(nodes[..], rest, false) && Separate(rest) && AllWellFormed(rest)
      && done + CodeLine(rest) == line && |line| <= TEXT_MAX
      && Wrote(t0, 0, text[..], compilePc, done)
    }

    /** Compile one statement on its own; its value is popped if another one follows. */
    method Statement(current: int, ghost rest: seq<Tree>, ghost line: seq<Byte>, ghost t0: seq<Byte>, ghost done: seq<Byte>)
      returns (sibling: int, ghost done': seq<Byte>)
      requires Valid() && current != NONE && Pending(current, rest, line, t0, done)
      modifies this`compilePc, nodes, text
      ensures rest != [] && Pending(sibling, rest[1..], line, t0, done')
    {
      hide Linked, Checked, Separate, Wrote, Code, CodeLine, WellFormed;
      ghost var n0, t1, p1 := nodes[..], text[..], compilePc;
      WroteLength(t0, 0, t1, p1, done);
      FirstOfLine(n0, current, rest);
      CutOff(n0, current, rest);
      CodeLineParts(rest);
      ghost var code := Code(rest[0], false);
      OneCode(rest[0]);
      sibling := nodes[current].sibling;
      nodes[current] := nodes[current].(sibling := NONE);
      Compile(current, [rest[0]], false);
      ghost var t2, p2 := text[..], compilePc;
      WroteLength(t1, p1, t2, p2, code);
      WroteBoth(t0, 0, t1, p1, t2, p2, done, code);
      done' := done + code;
      if sibling != NONE {
        CodeByte(POP);
        WroteBoth(t0, 0, t2, p2, text[..], compilePc, done', [POP]);
        done' := done' + [POP];
      }
    }

    /** finsh_compiler_run: check types, then compile statement by statement. */
    method CompilerRun(root: int, ghost ts: seq<Tree>)
      requires Valid() && Linked(nodes[..], root, ts) && Separate(ts) && Unmarked(nodes[..], ts)
      requires AllWellFormed(ts) && |CodeLine(ts)| <= TEXT_MAX
      modifies this`compilePc, nodes, text, stack
      ensures At(text[..], 0, CodeLine(ts))
      ensures forall k :: |CodeLine(ts)| <= k < |text[..]| ==> text[..][k] == NOOP
      ensures stack[0] == 0
    {
      hide Linked, Checked, Separate, Unmarked, Wrote, At, Code, CodeLine, WellFormed, AllWellFormed;
      NoAddress(ts);
      TypeCheck(root, false, ts);
      ClearText();
      compilePc := 0;
      var sibling := root;
      ghost var rest, done, t0 := ts, [], text[..];
      WroteNothing(t0, 0);
      while sibling != NONE
        invariant Pending(sibling, rest, CodeLine(ts), t0, done) && stack[0] == 0
        decreases |rest|
      {
        sibling, done := Statement(sibling, rest, CodeLine(ts), t0, done);
        rest := rest[1..];
      }
      EndOfLine(nodes[..], rest);
      EmptyLine();
      assert done + [] == done;
      WroteAll(t0, text[..], compilePc, done);
    }

    // ---- the machine ----

    /** What the tables hold as a state of the machine. */
    ghost function State(): Vm
      requires Valid() && sp <= STACK_MAX
      reads this, stack
    {
      Vm(pc, stack[..sp], store)
    }

    /** Pop two operands, push the result; false where C leaves the effect undefined. */
    method OpBinary(op: BinOp) returns (ok: bool)
      requires Valid() && sp <= STACK_MAX
      modifies this`sp, stack
      ensures sp <= STACK_MAX
      ensures ok <==> Binary(op, old(State())).Some?
      ensures ok ==> State() == Binary(op, old(State())).value
    {
      if sp < 2 { return false; }
      var r := Arith(op, stack[sp - 2], stack[sp - 1]);
      assert stack[..sp][sp - 2] == stack[sp - 2] && stack[..sp][sp - 1] == stack[sp - 1];
      if r.None? { return false; }
      stack[sp - 2] := r.value;
      sp := sp - 1;
      assert stack[..sp] == old(stack[..sp - 2]) + [r.value];
      return true;
    }

    /** Push a word; there is always room. */
    method OpPush(w: Word)
      requires Valid() && sp < STACK_MAX
      modifies this`sp, stack
      ensures sp == old(sp) + 1 && stack[..sp] == old(stack[..sp]) + [w]
    {
      stack[sp] := w;
      sp := sp + 1;
    }

    /** Fetch and execute one instruction; false where C leaves its effect undefined. */
    method Execute() returns (ok: bool)
      requires Valid() && pc < TEXT_MAX && 5 * sp <= pc
      modifies this`pc, this`sp, this`store, stack
      ensures sp <= STACK_MAX
      ensures ok <==> Step(text[..], old(State())).Some?
      ensures ok ==> State() == Step(text[..], old(State())).value
    {
      hide GetWord, BinaryOf, Binary, BitNot;
      ghost var s := State();
      var op := text[pc];
      assert text[..][pc] == op;
      assert s.stack == stack[..sp];
      pc := pc + 1;
      if op == NOOP { return true; }
      if BinaryOf(op).Some? {
        ok := OpBinary(BinaryOf(op).value);
        return;
      }
      if op == BITWISE {
        if sp < 1 { return false; }
        stack[sp - 1] := BitNot(stack[sp - 1]);
        assert stack[..sp] == old(stack[..sp - 1]) + [BitNot(old(stack[sp - 1]))];
        return true;
      }
      if op == LD || op == LD_VALUE {
        if pc + 4 > TEXT_MAX { return false; }
        var w := GetWord(text[pc..pc + 4]);
        assert text[..][pc..pc + 4] == text[pc..pc + 4];
        if op == LD_VALUE {
          if w !in store { return false; }
          w := store[w];
        }
        OpPush(w);
        pc := pc + 4;
        return true;
      }
      if op == LD_VALUE_STACK {
        if sp < 1 || stack[sp - 1] !in store { return false; }
        stack[sp - 1] := store[stack[sp - 1]];
        assert stack[..sp] == old(stack[..sp - 1]) + [store[old(stack[sp - 1])]];
        return true;
      }
      if op == ST {
        if sp < 2 || stack[sp - 2] !in store { return false; }
        store := store[stack[sp - 2] := stack[sp - 1]];
        sp := sp - 1;
        assert stack[..sp] == old(stack[..sp])[..sp];
        return true;
      }
      if op == POP {
        if sp < 1 { return false; }
        sp := sp - 1;
        assert stack[..sp] == old(stack[..sp])[..sp];
        return true;
      }
      return false;
    }

    /** finsh_vm_run: execute to the end of the text segment. No text makes it write
        outside the stack. */
    method VmRun() returns (ok: bool)
      requires Valid()
      modifies this`pc, this`sp, this`store, stack
      ensures sp <= STACK_MAX
      ensures ok <==> Run(text[..], Vm(0, [], old(store))).Some?
      ensures ok ==> State() == Run(text[..], Vm(0, [], old(store))).value
    {
      hide Step;
      sp, pc := 0, 0;
      assert stack[..0] == [];
      while pc < TEXT_MAX
        invariant pc <= TEXT_MAX && 5 * sp <= pc
        invariant Run(text[..], State()) == Run(text[..], Vm(0, [], old(store)))
        decreases TEXT_MAX - pc
      {
        ghost var s := State();
        ok := Execute();
        if !ok { return; }
        StepAdvances(text[..], s);
        StepStack(text[..], s);
      }
      ok := true;
    }

    /** Compile a line of statements and run it: the machine succeeds exactly when direct
        evaluation is defined, then the variables are the ones evaluation leaves, and slot 0
        of the stack (finsh_stack_bottom) holds the value of the last statement. */
    method RunLine(root: int, ghost ts: seq<Tree>) returns (ok: bool)
      requires Valid() && Linked(nodes[..], root, ts) && Separate(ts) && Unmarked(nodes[..], ts)
      requires AllWellFormed(ts) && |CodeLine(ts)| <= TEXT_MAX
      modifies this, nodes, text, stack
      ensures sp <= STACK_MAX
      ensures ok <==> EvalLine(ts, 0, old(store)).Some?
      ensures ok ==> store == EvalLine(ts, 0, old(store)).value.1
      ensures ok && ts != [] ==> sp == 1 && stack[0] == EvalLine(ts, 0, old(store)).value.0
    {
      hide Linked, Separate, Unmarked, At, Code, WellFormed, Run, EvalLine;
      CompilerRun(root, ts);
      ghost var t := text[..];
      LineResult(t, ts, store);
      ok := VmRun();
      if ok {
        assert ts != [] ==> stack[..sp][0] == stack[0];
      }
    }
  }
}
