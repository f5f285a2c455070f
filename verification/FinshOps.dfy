/** What the operators of the finsh shell compute: the laws of C for 32-bit words, for the instructions of the machine
    and for compiled lines. */
module FinshOps {
  import opened FinshVm
  import opened FinshTree
  import Bitmaps
  import WordBits

  const MODULUS := 0x1_0000_0000

  // ---- the laws ----

  predicate Congruent(x: int, y: int) { (x - y) % MODULUS == 0 }

  /** q and r are quotient and remainder of a division that truncates toward zero. */
  predicate Divides(x: int, y: int, q: int, r: int) {
    x == q * y + r && Abs(r) < Abs(y) && (r == 0 || (r < 0 <==> x < 0))
  }

  predicate HasBit(w: Word, i: bv32)
    requires i < 32
  {
    Bitmaps.Has(ToBits(w), i)
  }

  /** C leaves the result undefined for a division by zero and for a shift by the width or more. */
  predicate Defined(op: BinOp, y: Word) {
    match op
    case Div => y != 0
    case Mod => y != 0
    case Shl => y < 32
    case Shr => y < 32
    case _ => true
  }

  /** w is a result of `x op y` on signed 32-bit words; what does not fit wraps around. */
  ghost predicate Law(op: BinOp, x: Word, y: Word, w: Word) {
    match op
    case Add => Congruent(w, Signed(x) + Signed(y))
    case Sub => Congruent(w, Signed(x) - Signed(y))
    case Mul => Congruent(w, Signed(x) * Signed(y))
    case Div => exists q, r :: Divides(Signed(x), Signed(y), q, r) && Congruent(w, q)
    case Mod => exists q, r :: Divides(Signed(x), Signed(y), q, r) && Signed(w) == r
    case And => forall i :: i < 32 ==> (HasBit(w, i) <==> HasBit(x, i) && HasBit(y, i))
    case Or => forall i :: i < 32 ==> (HasBit(w, i) <==> HasBit(x, i) || HasBit(y, i))
    case Xor => forall i :: i < 32 ==> (HasBit(w, i) <==> HasBit(x, i) != HasBit(y, i))
    case Shl => Congruent(w, Signed(x) * Pow2(y))
    case Shr => Signed(w) * Pow2(y) <= Signed(x) < (Signed(w) + 1) * Pow2(y)
  }

  // ---- sums, products and quotients ----

  lemma Multiple(x: int, y: int, k: int)
    requires x == y + k * MODULUS
    ensures Congruent(x, y)
  {}

  lemma SumLaw(x: Word, y: Word)
    ensures Congruent(ToWord(x + y), Signed(x) + Signed(y))
    ensures Congruent(ToWord(x - y), Signed(x) - Signed(y))
  {}

  lemma SignedMultiple(x: Word) returns (a: int)
    ensures x == Signed(x) + a * MODULUS
  {
    a := if x < 0x8000_0000 then 0 else 1;
  }

  lemma ScaledLaw(x: Word, z: int)
    ensures Congruent(ToWord(x * z), Signed(x) * z)
  {
    var a := SignedMultiple(x);
    var q := x * z / MODULUS;
    assert x * z == Signed(x) * z + a * z * MODULUS;
    Multiple(ToWord(x * z), Signed(x) * z, a * z - q);
  }

  lemma ProductLaw(x: Word, y: Word)
    ensures Congruent(ToWord(x * y), Signed(x) * Signed(y))
  {
    ScaledLaw(x, y);
    var b := SignedMultiple(y);
    var k := (ToWord(x * y) - Signed(x) * y) / MODULUS;
    assert Signed(x) * y == Signed(x) * Signed(y) + Signed(x) * b * MODULUS;
    Multiple(ToWord(x * y), Signed(x) * Signed(y), k + Signed(x) * b);
  }

  lemma DivMod(m: nat, n: nat, q: int)
    requires n > 0 && q == m / n
    ensures q >= 0 && 0 <= m - q * n < n
  {}

  lemma Truncates(x: int, y: int)
    requires y != 0
    ensures Divides(x, y, Quotient(x, y), x - y * Quotient(x, y))
  {
    var q := Abs(x) / Abs(y);
    DivMod(Abs(x), Abs(y), q);
    SignsMatch(x, y, q, Quotient(x, y));
  }

  lemma SignsMatch(x: int, y: int, q: int, z: int)
    requires q >= 0 && y != 0 && z == (if (x < 0) == (y < 0) then q else -q) && 0 <= Abs(x) - q * Abs(y) < Abs(y)
    ensures Divides(x, y, z, x - y * z)
  {
    assert y * z == if x < 0 then -(q * Abs(y)) else q * Abs(y);
  }

  lemma QuotientLaw(x: Word, y: Word)
    requires y != 0
    ensures Law(Div, x, y, ToWord(Quotient(Signed(x), Signed(y))))
    ensures Law(Mod, x, y, ToWord(Signed(x) - Signed(y) * Quotient(Signed(x), Signed(y))))
  {
    hide Divides, Quotient;
    var a, b := Signed(x), Signed(y);
    var q := Quotient(a, b);
    var r := a - b * q;
    Truncates(a, b);
    Remainder(a, b, q, r);
    Multiple(ToWord(q), q, -(q / MODULUS));
  }

  lemma Remainder(x: int, y: int, q: int, r: int)
    requires Divides(x, y, q, r) && -0x8000_0000 <= y < 0x8000_0000
    ensures Signed(ToWord(r)) == r
  {}

  // ---- bits ----

  lemma SameBits(b: bv32)
    ensures ToBits(FromBits(b)) == b
  {}

  lemma BitLaws(x: Word, y: Word, i: bv32)
    requires i < 32
    ensures HasBit(FromBits(WordBits.And(ToBits(x), ToBits(y))), i) <==> HasBit(x, i) && HasBit(y, i)
    ensures HasBit(FromBits(WordBits.Or(ToBits(x), ToBits(y))), i) <==> HasBit(x, i) || HasBit(y, i)
    ensures HasBit(FromBits(WordBits.Xor(ToBits(x), ToBits(y))), i) <==> HasBit(x, i) != HasBit(y, i)
    ensures HasBit(BitNot(x), i) <==> !HasBit(x, i)
  {
    hide Bitmaps.Has, WordBits.And, WordBits.Or, WordBits.Xor, WordBits.Not, ToBits, FromBits;
    Bitmaps.BitByBit(ToBits(x), ToBits(y), i);
    SameBits(WordBits.And(ToBits(x), ToBits(y)));
    SameBits(WordBits.Or(ToBits(x), ToBits(y)));
    SameBits(WordBits.Xor(ToBits(x), ToBits(y)));
    SameBits(WordBits.Not(ToBits(x)));
  }

  // ---- shifts ----

  /** With Pow2(1) == 2 this makes Pow2(n) the n-th power of two. */
  lemma {:induction false} PowersMultiply(m: nat, n: nat)
    ensures Pow2(m + n) == Pow2(m) * Pow2(n)
    ensures Pow2(1) == 2
  {
    if n > 0 { PowersMultiply(m, n - 1); }
    assert Pow2(1) == 2 * Pow2(0);
  }

  lemma FloorLaw(x: int, n: int, q: int)
    requires n > 0 && q == x / n
    ensures q * n <= x < (q + 1) * n
  {}

  lemma FloorRange(x: int, n: int, q: int)
    requires n > 0 && q * n <= x < (q + 1) * n && -0x8000_0000 <= x < 0x8000_0000
    ensures Signed(ToWord(q)) == q
  {
    assert q < -0x8000_0000 ==> (q + 1) * n <= -0x8000_0000 * n;
    assert q >= 0x8000_0000 ==> q * n >= 0x8000_0000 * n;
  }

  lemma ShiftLaw(x: Word, y: Word)
    requires y < 32
    ensures Law(Shl, x, y, ToWord(x * Pow2(y)))
    ensures Pow2(y) > 0 && Law(Shr, x, y, ToWord(Signed(x) / Pow2(y)))
  {
    hide Pow2;
    Pow2Positive(y);
    ScaledLaw(x, Pow2(y));
    var q := Signed(x) / Pow2(y);
    FloorLaw(Signed(x), Pow2(y), q);
    FloorRange(Signed(x), Pow2(y), q);
  }

  // ---- the operators ----

  /** Every operator is defined exactly where C defines it, and then obeys its law. */
  lemma ArithLaw(op: BinOp, x: Word, y: Word)
    ensures Arith(op, x, y).Some? <==> Defined(op, y)
    ensures Arith(op, x, y).Some? ==> Law(op, x, y, Arith(op, x, y).value)
  {
    hide Pow2, Quotient, ToBits, FromBits, HasBit, WordBits.And, WordBits.Or, WordBits.Xor;
    match op
    case Add => SumLaw(x, y);
    case Sub => SumLaw(x, y);
    case Mul => ProductLaw(x, y);
    case Div => if y != 0 { QuotientLaw(x, y); }
    case Mod => if y != 0 { QuotientLaw(x, y); }
    case And => forall i | i < 32 ensures HasBit(FromBits(WordBits.And(ToBits(x), ToBits(y))), i) <==> HasBit(x, i) && HasBit(y, i) { BitLaws(x, y, i); }
    case Or => forall i | i < 32 ensures HasBit(FromBits(WordBits.Or(ToBits(x), ToBits(y))), i) <==> HasBit(x, i) || HasBit(y, i) { BitLaws(x, y, i); }
    case Xor => forall i | i < 32 ensures HasBit(FromBits(WordBits.Xor(ToBits(x), ToBits(y))), i) <==> HasBit(x, i) != HasBit(y, i) { BitLaws(x, y, i); }
    case Shl => if y < 32 { ShiftLaw(x, y); }
    case Shr => if y < 32 { ShiftLaw(x, y); }
  }

  /** The instruction of an operator, fetched with x and y on top of the stack: it is undefined exactly where C leaves
      the result undefined, and otherwise leaves one word in their place, which obeys the law. */
  lemma StepLaw(text: seq<Byte>, s: Vm, op: BinOp, base: seq<Word>, x: Word, y: Word)
    requires s.pc < |text| && text[s.pc] == OpCode(op) && s.stack == base + [x, y]
    ensures Step(text, s).Some? <==> Defined(op, y)
    ensures Defined(op, y) ==> exists w :: Law(op, x, y, w) && Step(text, s) == Some(Vm(s.pc + 1, base + [w], s.store))
  {
    hide Arith, Law, Defined;
    ArithLaw(op, x, y);
    BinaryOfOpCode(op);
    assert s.stack[..|s.stack| - 2] == base;
    match Arith(op, x, y)
    case None =>
    case Some(w) => assert Law(op, x, y, w) && Step(text, s) == Some(Vm(s.pc + 1, base + [w], s.store));
  }

  ghost predicate Complements(x: Word, w: Word) { forall i :: i < 32 ==> (HasBit(w, i) <==> !HasBit(x, i)) }

  /** The complement, bit by bit. */
  lemma StepNot(text: seq<Byte>, s: Vm, base: seq<Word>, x: Word)
    requires s.pc < |text| && text[s.pc] == BITWISE && s.stack == base + [x]
    ensures exists w :: Complements(x, w) && Step(text, s) == Some(Vm(s.pc + 1, base + [w], s.store))
  {
    hide HasBit, BitNot;
    assert s.stack[..|s.stack| - 1] == base;
    assert Step(text, s) == Some(Vm(s.pc + 1, base + [BitNot(x)], s.store));
    forall i | i < 32
      ensures HasBit(BitNot(x), i) <==> !HasBit(x, i)
    {
      BitLaws(x, x, i);
    }
  }

  // ---- lines with one statement ----

  /** The text segment holds the code of one statement, padded with no-ops. */
  ghost predicate Compiled(text: seq<Byte>, t: Tree) {
    WellFormed(t) && At(text, 0, CodeLine([t])) && forall k :: |CodeLine([t])| <= k < |text| ==> text[k] == NOOP
  }

  lemma LineResult(text: seq<Byte>, t: Tree, st: Store)
    requires Compiled(text, t)
    ensures Run(text, Vm(0, [], st)) == match Eval(t, st) case None => None case Some((w, st')) => Some(Vm(|text|, [w], st'))
  {
    hide Run, Eval, At, CodeLine, WellFormed;
    CompiledLineIsCorrect(text, [t], st);
    assert [t][1..] == [];
  }

  lemma FirstOperand(ts: seq<Tree>, st: Store)
    requires AllWellFormed(ts) && ts != []
    ensures EvalAll(ts, false, st) ==
      match Eval(ts[0], st)
      case None => None
      case Some((x, st')) =>
        match EvalAll(ts[1..], false, st')
        case None => None
        case Some((v, st'')) => Some(([x] + v, st''))
  {
    hide Eval;
  }

  lemma LastOperand(ts: seq<Tree>, st: Store)
    requires AllWellFormed(ts) && |ts| == 1
    ensures EvalAll(ts, false, st) == match Eval(ts[0], st) case None => None case Some((x, st')) => Some(([x], st'))
  {
    hide Eval;
    FirstOperand(ts, st);
    assert ts[1..] == [];
    forall st': Store
      ensures EvalAll([], false, st') == Some(([], st'))
    {
    }
    if Eval(ts[0], st).Some? { assert [Eval(ts[0], st).value.0] + [] == [Eval(ts[0], st).value.0]; }
  }

  /** A node whose operand is a variable, wanted by address. */
  lemma AddressOperand(t: Tree, st: Store)
    requires WellFormed(t) && |t.kids| == 1 && WantsAddress(t.kind)
    ensures EvalAll(t.kids, true, st) == Some(([t.kids[0].word], st))
  {
    assert t.kids[1..] == [];
    assert EvalAll([], false, st) == Some(([], st));
    assert [t.kids[0].word] + [] == [t.kids[0].word];
  }

  lemma VariableValue(t: Tree, st: Store)
    requires WellFormed(t) && t.kind == Id
    ensures Eval(t, st) == if t.word in st then Some((st[t.word], st)) else None
  {
    assert EvalAll(t.kids, false, st) == Some(([], st));
  }

  /** `e1 op e2`: the operands from left to right, then one word that obeys the law of the operator. */
  lemma LineOperator(text: seq<Byte>, t: Tree, st: Store, x: Word, st1: Store, y: Word, st2: Store)
    requires Compiled(text, t) && t.kind.Bin?
    requires Eval(t.kids[0], st) == Some((x, st1)) && Eval(t.kids[1], st1) == Some((y, st2))
    ensures var r := Run(text, Vm(0, [], st));
      && (r.Some? <==> Defined(t.kind.op, y))
      && (r.Some? ==> |r.value.stack| == 1 && r.value.store == st2 && Law(t.kind.op, x, y, r.value.stack[0]))
  {
    hide Run, EvalAll, Arith, Law, CodeLine, At;
    LineResult(text, t, st);
    FirstOperand(t.kids, st);
    assert t.kids[1..][0] == t.kids[1];
    LastOperand(t.kids[1..], st1);
    ArithLaw(t.kind.op, x, y);
  }

  predicate Raises(k: Kind) { k.PreInc? || k.Inc? }

  predicate Lowers(k: Kind) { k.PreDec? || k.Dec? }

  /** `++v`, `--v`, `v++` and `v--`: v changes by one; the value is the new one, or for a postfix operator the old one. */
  lemma LineIncrement(text: seq<Byte>, t: Tree, st: Store)
    requires Compiled(text, t) && (Raises(t.kind) || Lowers(t.kind))
    ensures var r, a := Run(text, Vm(0, [], st)), t.kids[0].word;
      && (r.Some? <==> a in st)
      && (r.Some? ==>
            && a in r.value.store && r.value.store == st[a := r.value.store[a]]
            && Congruent(r.value.store[a], Signed(st[a]) + if Raises(t.kind) then 1 else -1)
            && r.value.stack == [if t.kind.PreInc? || t.kind.PreDec? then r.value.store[a] else st[a]])
  {
    hide Run, EvalAll, CodeLine, At;
    LineResult(text, t, st);
    var v, a := t.kids[0], t.kids[0].word;
    if WantsAddress(t.kind) {
      AddressOperand(t, st);
    } else {
      LastOperand(t.kids, st);
      VariableValue(v, st);
    }
    if a in st {
      SumLaw(st[a], 1);
      assert Eval(t, st) == Apply(t, [if WantsAddress(t.kind) then a else st[a]], st);
    }
  }

  /** `v = e`: the value of e, and v has it afterwards. */
  lemma LineAssign(text: seq<Byte>, t: Tree, st: Store, w: Word, st1: Store)
    requires Compiled(text, t) && t.kind.Assign? && Eval(t.kids[1], st) == Some((w, st1))
    ensures Run(text, Vm(0, [], st)) ==
      if t.kids[0].word in st1 then Some(Vm(|text|, [w], st1[t.kids[0].word := w])) else None
  {
    hide Run, CodeLine, At;
    LineResult(text, t, st);
    assert t.kids[1..][0] == t.kids[1];
    LastOperand(t.kids[1..], st);
    assert [t.kids[0].word] + [w] == [t.kids[0].word, w];
    assert EvalAll(t.kids, true, st) == Some(([t.kids[0].word, w], st1));
  }
}
