/** The stack machine of the finsh shell (finsh_vm.c, finsh_ops.c), on 32-bit words. */
module FinshVm {
  import WordBits

  type Byte = x: int | 0 <= x < 0x100
  type Word = x: int | 0 <= x < 0x1_0000_0000

  /** Variable memory: the 4-byte cell at each variable's address. */
  type Store = map<Word, Word>

  datatype Option<+T> = None | Some(value: T)

  const STACK_MAX := 64   // FINSH_STACK_MAX
  const TEXT_MAX := 128   // FINSH_TEXT_MAX

  const NOOP: Byte := 0x00
  const ADD: Byte := 0x03
  const SUB: Byte := 0x06
  const DIV: Byte := 0x09
  const MOD: Byte := 0x0C
  const MUL: Byte := 0x0F
  const AND: Byte := 0x12
  const OR: Byte := 0x15
  const XOR: Byte := 0x18
  const BITWISE: Byte := 0x1B
  const SHL: Byte := 0x1E
  const SHR: Byte := 0x21
  const LD: Byte := 0x24
  const LD_VALUE: Byte := 0x27
  const ST: Byte := 0x2A
  const POP: Byte := 0x2B
  const LD_VALUE_STACK: Byte := 0x2F

  // ---- arithmetic on `long` ----

  function ToWord(x: int): Word { x % 0x1_0000_0000 }

  function Plus(w: Word, d: int): Word { ToWord(w as int + d) }

  function Signed(w: Word): int { if w < 0x8000_0000 then w else w - 0x1_0000_0000 }

  function Abs(x: int): nat { if x < 0 then -x else x }

  /** C division truncates toward zero. */
  function Quotient(x: int, y: int): int
    requires y != 0
  {
    if (x < 0) == (y < 0) then Abs(x) / Abs(y) else -(Abs(x) / Abs(y))
  }

  function ToBits(w: Word): bv32 { w as bv32 }

  function FromBits(b: bv32): Word { b as Word }

  function Pow2(n: nat): nat { if n == 0 then 1 else 2 * Pow2(n - 1) }

  lemma Pow2Positive(n: nat)
    ensures Pow2(n) > 0
  {}

  datatype BinOp = Add | Sub | Mul | Div | Mod | And | Or | Xor | Shl | Shr

  function OpCode(op: BinOp): Byte {
    match op
    case Add => ADD
    case Sub => SUB
    case Mul => MUL
    case Div => DIV
    case Mod => MOD
    case And => AND
    case Or => OR
    case Xor => XOR
    case Shl => SHL
    case Shr => SHR
  }

  /** None where C leaves the result undefined: division by zero and shifts out of range. */
  function Arith(op: BinOp, x: Word, y: Word): Option<Word> {
    match op
    case Add => Some(ToWord(x + y))
    case Sub => Some(ToWord(x - y))
    case Mul => Some(ToWord(x * y))
    case Div => if y == 0 then None else Some(ToWord(Quotient(Signed(x), Signed(y))))
    case Mod => if y == 0 then None else Some(ToWord(Signed(x) - Signed(y) * Quotient(Signed(x), Signed(y))))
    case And => Some(FromBits(WordBits.And(ToBits(x), ToBits(y))))
    case Or => Some(FromBits(WordBits.Or(ToBits(x), ToBits(y))))
    case Xor => Some(FromBits(WordBits.Xor(ToBits(x), ToBits(y))))
    case Shl => if y >= 32 then None else Some(ToWord(x * Pow2(y)))
    case Shr => if y >= 32 then None else Pow2Positive(y); Some(ToWord(Signed(x) / Pow2(y)))
  }

  function BitNot(x: Word): Word { FromBits(WordBits.Not(ToBits(x))) }

  // ---- operands ----

  function Digit(x: int, unit: nat): Byte
    requires unit > 0
  {
    x / unit % 0x100
  }

  /** FINSH_SET32: least significant byte first. */
  function Bytes(w: Word): (s: seq<Byte>)
    ensures |s| == 4
  {
    [Digit(w, 1), Digit(w, 0x100), Digit(w, 0x1_0000), Digit(w, 0x100_0000)]
  }

  /** FINSH_GET32. */
  function GetWord(s: seq<Byte>): Word
    requires |s| == 4
  {
    s[0] as int + 0x100 * s[1] as int + 0x1_0000 * s[2] as int + 0x100_0000 * s[3] as int
  }

  lemma GetBytes(w: Word)
    ensures GetWord(Bytes(w)) == w
  {
    var x: int := w;
    assert x / 0x1_0000 == x / 0x100 / 0x100 && x / 0x100_0000 == x / 0x100 / 0x100 / 0x100;
  }

  // ---- the machine ----

  /** Program counter, the stack up to finsh_sp, and the variables. */
  datatype Vm = Vm(pc: nat, stack: seq<Word>, store: Store)

  function Push(s: Vm, w: Word): Vm { s.(stack := s.stack + [w]) }

  function Top(s: Vm): Word
    requires s.stack != []
  {
    s.stack[|s.stack| - 1]
  }

  function Drop(s: Vm, n: nat): Vm
    requires n <= |s.stack|
  {
    s.(stack := s.stack[..|s.stack| - n])
  }

  function BinaryOf(code: Byte): Option<BinOp> {
    if code == ADD then Some(Add)
    else if code == SUB then Some(Sub)
    else if code == MUL then Some(Mul)
    else if code == DIV then Some(Div)
    else if code == MOD then Some(Mod)
    else if code == AND then Some(And)
    else if code == OR then Some(Or)
    else if code == XOR then Some(Xor)
    else if code == SHL then Some(Shl)
    else if code == SHR then Some(Shr)
    else None
  }

  lemma BinaryOfOpCode(op: BinOp)
    ensures BinaryOf(OpCode(op)) == Some(op)
  {}

  /** OP_BIN_DWORD. */
  function Binary(op: BinOp, s: Vm): Option<Vm> {
    var n := |s.stack|;
    if n < 2 then None
    else
      match Arith(op, s.stack[n - 2], s.stack[n - 1])
      case None => None
      case Some(w) => Some(Push(Drop(s, 2), w))
  }

  /** One instruction; None is an undefined effect of the C code: no operand on the stack,
      an operand outside the text, an address that is no variable, or an opcode this model
      does not cover. */
  function Step(text: seq<Byte>, s: Vm): Option<Vm>
    requires s.pc < |text|
  {
    var code, n, s1 := text[s.pc], |s.stack|, s.(pc := s.pc + 1);
    if code == NOOP then Some(s1)
    else if BinaryOf(code).Some? then Binary(BinaryOf(code).value, s1)
    else if code == BITWISE then
      if n < 1 then None else Some(Push(Drop(s1, 1), BitNot(Top(s))))
    else if code == LD then
      if s.pc + 5 > |text| then None
      else Some(Push(s.(pc := s.pc + 5), GetWord(text[s.pc + 1..s.pc + 5])))
    else if code == LD_VALUE then
      if s.pc + 5 > |text| then None
      else
        var a := GetWord(text[s.pc + 1..s.pc + 5]);
        if a !in s.store then None else Some(Push(s.(pc := s.pc + 5), s.store[a]))
    else if code == LD_VALUE_STACK then
      if n < 1 || Top(s) !in s.store then None else Some(Push(Drop(s1, 1), s.store[Top(s)]))
    else if code == ST then
      if n < 2 || s.stack[n - 2] !in s.store then None
      else Some(Drop(s1, 1).(store := s.store[s.stack[n - 2] := Top(s)]))
    else if code == POP then
      if n < 1 then None else Some(Drop(s1, 1))
    else None
  }

  lemma StepAdvances(text: seq<Byte>, s: Vm)
    requires s.pc < |text| && Step(text, s).Some?
    ensures s.pc < Step(text, s).value.pc <= |text|
  {}

  /** finsh_vm_run: fetch and execute to the end of the text segment. */
  function Run(text: seq<Byte>, s: Vm): Option<Vm>
    decreases |text| - s.pc
  {
    if s.pc >= |text| then Some(s)
    else
      match Step(text, s)
      case None => None
      case Some(s') =>
        StepAdvances(text, s);
        Run(text, s')
  }

  /** Whatever bytes the text segment holds, an instruction that pushes is longer than one
      that does not: the stack never holds more than one word for every five bytes fetched. */
  lemma StepStack(text: seq<Byte>, s: Vm)
    requires s.pc < |text| && 5 * |s.stack| <= s.pc && Step(text, s).Some?
    ensures 5 * |Step(text, s).value.stack| <= Step(text, s).value.pc
  {}

  /** So the C code, which does not check, never writes beyond its stack. */
  lemma {:induction false} NoOverflow(text: seq<Byte>, s: Vm)
    requires s.pc <= |text| <= TEXT_MAX && 5 * |s.stack| <= s.pc && Run(text, s).Some?
    ensures |Run(text, s).value.stack| <= TEXT_MAX / 5 < STACK_MAX
    decreases |text| - s.pc
  {
    if s.pc < |text| {
      StepAdvances(text, s);
      StepStack(text, s);
      NoOverflow(text, Step(text, s).value);
    }
  }
}
