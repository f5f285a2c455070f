/** The CRC-32 register of crc32.c as a linear machine over GF(2).

    A register value is a polynomial of degree below 32 with the lowest power in
    the most significant bit (crc32.c, lines 63-86). The first section holds facts
    about 32-bit words, each a lemma of its own; everything after it is algebra on
    the wrapped type `Reg`. */
module Crc32Register {

  const POLY: bv32 := 0xedb8_8320

  // ---- 32-bit words ----

  function XorWord(a: bv32, b: bv32): bv32 { a ^ b }

  function TwiceWord(a: bv32): bv32 { a << 1 }

  function HalfWord(a: bv32): bv32 { a >> 1 }

  function ShiftWord(c: bv32): bv32 {
    if c & 1 == 1 then POLY ^ (c >> 1) else c >> 1
  }

  lemma XorWordComm(a: bv32, b: bv32)
    ensures XorWord(a, b) == XorWord(b, a)
  {}

  lemma XorWordAssoc(a: bv32, b: bv32, c: bv32)
    ensures XorWord(XorWord(a, b), c) == XorWord(a, XorWord(b, c))
  {}

  lemma XorWordZero(a: bv32)
    ensures XorWord(a, 0) == a && XorWord(a, a) == 0
  {}

  lemma ShiftWordLinear11(a: bv32, b: bv32)
    requires a & 1 == 1 && b & 1 == 1
    ensures ShiftWord(XorWord(a, b)) == XorWord(ShiftWord(a), ShiftWord(b))
  {
    assert (a ^ b) & 1 == 0;
    assert (a ^ b) >> 1 == (POLY ^ (a >> 1)) ^ (POLY ^ (b >> 1));
  }

  lemma ShiftWordLinear10(a: bv32, b: bv32)
    requires a & 1 == 1 && b & 1 != 1
    ensures ShiftWord(XorWord(a, b)) == XorWord(ShiftWord(a), ShiftWord(b))
  {
    assert (a ^ b) & 1 == 1;
    assert POLY ^ ((a ^ b) >> 1) == (POLY ^ (a >> 1)) ^ (b >> 1);
  }

  lemma ShiftWordLinear00(a: bv32, b: bv32)
    requires a & 1 != 1 && b & 1 != 1
    ensures ShiftWord(XorWord(a, b)) == XorWord(ShiftWord(a), ShiftWord(b))
  {
    assert (a ^ b) & 1 != 1;
    assert (a ^ b) >> 1 == (a >> 1) ^ (b >> 1);
  }

  lemma ShiftWordLinear(a: bv32, b: bv32)
    ensures ShiftWord(XorWord(a, b)) == XorWord(ShiftWord(a), ShiftWord(b))
  {
    if a & 1 == 1 && b & 1 == 1 { ShiftWordLinear11(a, b); }
    if a & 1 == 1 && b & 1 != 1 { ShiftWordLinear10(a, b); }
    if a & 1 != 1 && b & 1 == 1 {
      ShiftWordLinear10(b, a);
      XorWordComm(a, b);
      XorWordComm(ShiftWord(a), ShiftWord(b));
    }
    if a & 1 != 1 && b & 1 != 1 { ShiftWordLinear00(a, b); }
  }

  lemma ShiftWordInjective(a: bv32, b: bv32)
    requires ShiftWord(a) == ShiftWord(b)
    ensures a == b
  {}

  lemma TwiceWordLinear(a: bv32, b: bv32)
    ensures TwiceWord(XorWord(a, b)) == XorWord(TwiceWord(a), TwiceWord(b))
  {}

  lemma ShiftTwiceWord(c: bv32)
    requires c & 0x7fff_ffff == c
    ensures ShiftWord(TwiceWord(c)) == c
  {
    assert c & 0x8000_0000 == 0;
  }

  /** All ones shifted right j times. */
  function Ones(j: nat): bv32 {
    if j == 0 then 0xffff_ffff else HalfWord(Ones(j - 1))
  }

  predicate LowMask(m: bv32) { m & (m + 1) == 0 }

  predicate Within(w: bv32, m: bv32) { w & m == w }

  lemma HalfMask(m: bv32)
    requires LowMask(m)
    ensures LowMask(HalfWord(m))
  {}

  lemma OddMask(m: bv32)
    requires LowMask(m) && m != 0
    ensures m & 1 == 1
  {}

  lemma WiderMask(w: bv32, m: bv32)
    requires LowMask(m) && Within(w, HalfWord(m))
    ensures Within(w, m)
  {}

  lemma TwiceWithin(w: bv32, m: bv32)
    requires Within(w, HalfWord(m))
    ensures Within(TwiceWord(w), m)
  {
    assert ((w & (m >> 1)) << 1) & m == (w & (m >> 1)) << 1;
  }

  lemma XorWithin(a: bv32, b: bv32, m: bv32)
    requires Within(a, m) && Within(b, m)
    ensures Within(XorWord(a, b), m)
  {
    assert ((a & m) ^ (b & m)) & m == (a & m) ^ (b & m);
  }

  lemma BitWithin(m: bv32)
    requires m & 1 == 1
    ensures Within(0, m) && Within(1, m)
  {}

  lemma FourHalves(w: bv32)
    ensures HalfWord(HalfWord(HalfWord(HalfWord(w)))) == w >> 4
  {}

  lemma OnesStep(j: nat, w: bv32)
    requires Ones(j) == w
    ensures Ones(j + 4) == w >> 4
  {
    assert Ones(j + 1) == HalfWord(w);
    assert Ones(j + 2) == HalfWord(Ones(j + 1));
    assert Ones(j + 3) == HalfWord(Ones(j + 2));
    FourHalves(w);
  }

  lemma OnesAtEnd()
    ensures Ones(31) == 1 && Ones(32) == 0
  {
    OnesStep(0, 0xffff_ffff);
    OnesStep(4, 0x0fff_ffff);
    OnesStep(8, 0x00ff_ffff);
    OnesStep(12, 0x000f_ffff);
    OnesStep(16, 0x0000_ffff);
    OnesStep(20, 0x0000_0fff);
    OnesStep(24, 0x0000_00ff);
    assert Ones(28) == 0xf;
    assert Ones(29) == 0x7;
    assert Ones(30) == 0x3;
    assert Ones(31) == 0x1;
    assert Ones(32) == 0x0;
  }

  lemma {:induction false} OnesAreLow(j: nat)
    ensures LowMask(Ones(j))
  {
    if j > 0 {
      OnesAreLow(j - 1);
      HalfMask(Ones(j - 1));
    }
  }

  lemma {:induction false} OnesAreOdd(j: nat)
    requires j <= 31
    ensures Ones(j) & 1 == 1
    decreases 31 - j
  {
    if j == 31 {
      OnesAtEnd();
    } else {
      OnesAreOdd(j + 1);
      OnesAreLow(j);
      OddMask(Ones(j));
    }
  }

  // ---- registers ----

  datatype Reg = Reg(w: bv32)

  function Xor(a: Reg, b: Reg): Reg { Reg(XorWord(a.w, b.w)) }

  const Nil := Reg(0)

  function Bit(b: bool): Reg { if b then Reg(1) else Nil }

  /** Multiply by x modulo the CRC polynomial. */
  function Shift(r: Reg): Reg { Reg(ShiftWord(r.w)) }

  /** Append n zero bits, that is, multiply by x^n. */
  function Zeros(n: nat, r: Reg): Reg {
    if n == 0 then r else Zeros(n - 1, Shift(r))
  }

  /** The bit-serial definition: the message enters the register one bit at a time. */
  function CrcBits(r: Reg, bits: seq<bool>): Reg
    decreases |bits|
  {
    if bits == [] then r else CrcBits(Shift(Xor(r, Bit(bits[0]))), bits[1..])
  }

  function HalfByte(b: bv8): bv8 { b >> 1 }

  function LowBits(b: bv8, n: nat): (s: seq<bool>)
    ensures |s| == n
  {
    if n == 0 then [] else [b & 1 != 0] + LowBits(HalfByte(b), n - 1)
  }

  /** The bits of a byte in transmission order, least significant first. */
  function BitsOf(b: bv8): seq<bool> { LowBits(b, 8) }

  function Message(s: seq<bv8>): seq<bool> {
    if s == [] then [] else BitsOf(s[0]) + Message(s[1..])
  }

  /** The register after feeding it a byte string. */
  function Feed(r: Reg, s: seq<bv8>): Reg { CrcBits(r, Message(s)) }

  const AllOnes := Reg(0xffff_ffff)

  /** The CRC of a byte string continued from a previous CRC, section 8 of RFC 1952. */
  function Crc(crc: Reg, s: seq<bv8>): Reg { Xor(Feed(Xor(crc, AllOnes), s), AllOnes) }

  lemma XorComm(a: Reg, b: Reg)
    ensures Xor(a, b) == Xor(b, a)
  {
    XorWordComm(a.w, b.w);
  }

  lemma XorAssoc(a: Reg, b: Reg, c: Reg)
    ensures Xor(Xor(a, b), c) == Xor(a, Xor(b, c))
  {
    XorWordAssoc(a.w, b.w, c.w);
  }

  lemma XorNil(a: Reg)
    ensures Xor(a, Nil) == a && Xor(Nil, a) == a
    ensures Xor(a, a) == Nil
  {
    XorWordZero(a.w);
    XorWordComm(a.w, 0);
  }

  lemma ShiftLinear(a: Reg, b: Reg)
    ensures Shift(Xor(a, b)) == Xor(Shift(a), Shift(b))
  {
    ShiftWordLinear(a.w, b.w);
  }

  lemma ShiftInjective(a: Reg, b: Reg)
    requires Shift(a) == Shift(b)
    ensures a == b
  {
    ShiftWordInjective(a.w, b.w);
  }

  lemma {:induction false} ZerosLinear(n: nat, a: Reg, b: Reg)
    ensures Zeros(n, Xor(a, b)) == Xor(Zeros(n, a), Zeros(n, b))
  {
    if n > 0 {
      ShiftLinear(a, b);
      ZerosLinear(n - 1, Shift(a), Shift(b));
    }
  }

  lemma {:induction false} ZerosOfNil(n: nat)
    ensures Zeros(n, Nil) == Nil
  {
    if n > 0 {
      assert Shift(Nil) == Nil;
      ZerosOfNil(n - 1);
    }
  }

  lemma {:induction false} ZerosCompose(m: nat, n: nat, r: Reg)
    ensures Zeros(n, Zeros(m, r)) == Zeros(m + n, r)
  {
    if m > 0 { ZerosCompose(m - 1, n, Shift(r)); }
  }

  lemma {:induction false} ZerosInjective(n: nat, a: Reg, b: Reg)
    requires Zeros(n, a) == Zeros(n, b)
    ensures a == b
  {
    if n > 0 {
      ZerosInjective(n - 1, Shift(a), Shift(b));
      ShiftInjective(a, b);
    }
  }

  lemma {:induction false} CrcBitsConcat(r: Reg, x: seq<bool>, y: seq<bool>)
    ensures CrcBits(r, x + y) == CrcBits(CrcBits(r, x), y)
    decreases |x|
  {
    if x == [] {
      assert x + y == y;
    } else {
      assert (x + y)[1..] == x[1..] + y;
      CrcBitsConcat(Shift(Xor(r, Bit(x[0]))), x[1..], y);
    }
  }

  lemma {:induction false} MessageConcat(s: seq<bv8>, t: seq<bv8>)
    ensures Message(s + t) == Message(s) + Message(t)
    ensures |Message(s)| == 8 * |s|
  {
    if s == [] {
      assert s + t == t;
    } else {
      assert (s + t)[1..] == s[1..] + t;
      MessageConcat(s[1..], t);
    }
  }

  lemma FeedConcat(r: Reg, s: seq<bv8>, t: seq<bv8>)
    ensures Feed(r, s + t) == Feed(Feed(r, s), t)
  {
    MessageConcat(s, t);
    CrcBitsConcat(r, Message(s), Message(t));
  }

  /** What the register held before a message comes out multiplied by x to the
      length of that message. */
  lemma {:induction false} Superposition(a: Reg, b: Reg, bits: seq<bool>)
    ensures CrcBits(Xor(a, b), bits) == Xor(Zeros(|bits|, a), CrcBits(b, bits))
    decreases |bits|
  {
    if bits != [] {
      var d := Bit(bits[0]);
      XorAssoc(a, b, d);
      ShiftLinear(a, Xor(b, d));
      Superposition(Shift(a), Shift(Xor(b, d)), bits[1..]);
    }
  }

  // ---- at most 32 message bits at once ----

  function Twice(r: Reg): Reg { Reg(TwiceWord(r.w)) }

  function TwiceN(n: nat, r: Reg): Reg {
    if n == 0 then r else Twice(TwiceN(n - 1, r))
  }

  /** The word whose bit i is bits[i]. */
  function Pack(bits: seq<bool>): Reg {
    if bits == [] then Nil else Xor(Bit(bits[0]), Twice(Pack(bits[1..])))
  }

  /** The top j bits of r are clear. */
  predicate Clear(r: Reg, j: nat) { Within(r.w, Ones(j)) }

  lemma TwiceLinear(a: Reg, b: Reg)
    ensures Twice(Xor(a, b)) == Xor(Twice(a), Twice(b))
  {
    TwiceWordLinear(a.w, b.w);
  }

  lemma {:induction false} ClearOne(r: Reg, j: nat)
    requires 1 <= j && Clear(r, j)
    ensures Clear(r, 1)
  {
    if j > 1 {
      OnesAreLow(j - 1);
      WiderMask(r.w, Ones(j - 1));
      ClearOne(r, j - 1);
    }
  }

  lemma {:induction false} TwiceNClear(n: nat, j: nat, r: Reg)
    requires Clear(r, j + n)
    ensures Clear(TwiceN(n, r), j)
  {
    if n > 0 {
      TwiceNClear(n - 1, j + 1, r);
      TwiceWithin(TwiceN(n - 1, r).w, Ones(j));
    }
  }

  lemma ShiftTwice(r: Reg)
    requires Clear(r, 1)
    ensures Shift(Twice(r)) == r
  {
    assert Ones(1) == 0x7fff_ffff;
    ShiftTwiceWord(r.w);
  }

  lemma {:induction false} PackClear(bits: seq<bool>)
    requires |bits| <= 32
    ensures Clear(Pack(bits), 32 - |bits|)
  {
    if bits != [] {
      PackClear(bits[1..]);
      var j := 32 - |bits|;
      OnesAreOdd(j);
      BitWithin(Ones(j));
      TwiceWithin(Pack(bits[1..]).w, Ones(j));
      XorWithin(Bit(bits[0]).w, TwiceWord(Pack(bits[1..]).w), Ones(j));
    }
  }

  /** Up to 32 message bits may be added to the register in one go and shifted out together. */
  lemma {:induction false} PackedInput(r: Reg, bits: seq<bool>)
    requires |bits| <= 32
    ensures CrcBits(r, bits) == Zeros(|bits|, Xor(r, Pack(bits)))
    decreases |bits|
  {
    if bits == [] {
      XorNil(r);
    } else {
      var d, p := Bit(bits[0]), Pack(bits[1..]);
      PackClear(bits[1..]);
      ClearOne(p, 32 - |bits[1..]|);
      ShiftTwice(p);
      XorAssoc(r, d, Twice(p));
      ShiftLinear(Xor(r, d), Twice(p));
      PackedInput(Shift(Xor(r, d)), bits[1..]);
    }
  }

  lemma PackInjectiveStep(d: bool, e: bool, p: Reg, q: Reg)
    requires Clear(p, 1) && Clear(q, 1)
    requires Xor(Bit(d), Twice(p)) == Xor(Bit(e), Twice(q))
    ensures d == e && p == q
  {
    hide XorWord, TwiceWord, ShiftWord, Within, Ones;
    SameLowBit(d, e, p, q);
    XorCancel(Bit(d), Twice(p), Twice(q));
    ShiftTwice(p);
    ShiftTwice(q);
  }

  lemma SameLowBit(d: bool, e: bool, p: Reg, q: Reg)
    requires Xor(Bit(d), Twice(p)) == Xor(Bit(e), Twice(q))
    ensures d == e
  {
    hide XorWord, TwiceWord;
    LowBitOfPush(Bit(d).w, p.w);
    LowBitOfPush(Bit(e).w, q.w);
  }

  lemma LowBitOfPush(d: bv32, p: bv32)
    requires d == 0 || d == 1
    ensures XorWord(d, TwiceWord(p)) & 1 == d
  {}

  lemma PackInjectiveHead(x: seq<bool>, y: seq<bool>, p: Reg, q: Reg)
    requires 1 <= |x| == |y| <= 32
    requires p == Pack(x[1..]) && q == Pack(y[1..])
    requires Xor(Bit(x[0]), Twice(p)) == Xor(Bit(y[0]), Twice(q))
    ensures x[0] == y[0] && p == q
  {
    hide XorWord, TwiceWord, Within, Ones;
    PackClear(x[1..]);
    PackClear(y[1..]);
    ClearOne(p, 32 - |x[1..]|);
    ClearOne(q, 32 - |y[1..]|);
    PackInjectiveStep(x[0], y[0], p, q);
  }

  lemma {:induction false} PackInjective(x: seq<bool>, y: seq<bool>)
    requires |x| == |y| <= 32
    requires Pack(x) == Pack(y)
    ensures x == y
  {
    if x != [] {
      PackInjectiveHead(x, y, Pack(x[1..]), Pack(y[1..]));
      PackInjective(x[1..], y[1..]);
      assert x == [x[0]] + x[1..] && y == [y[0]] + y[1..];
    }
  }

  /** Every burst error of at most 32 bits is detected: two messages of equal length
      that differ only within such a window never have the same CRC. */
  lemma BurstDetected(r: Reg, before: seq<bool>, x: seq<bool>, y: seq<bool>, after: seq<bool>)
    requires |x| == |y| <= 32
    ensures CrcBits(r, before + x + after) == CrcBits(r, before + y + after) <==> x == y
  {
    if CrcBits(r, before + x + after) == CrcBits(r, before + y + after) {
      var c := CrcBits(r, before);
      var u, v := CrcBits(c, x), CrcBits(c, y);
      CrcBitsConcat(r, before + x, after);
      CrcBitsConcat(r, before, x);
      CrcBitsConcat(r, before + y, after);
      CrcBitsConcat(r, before, y);
      CrcBitsInjective(u, v, after);
      PackedInput(c, x);
      PackedInput(c, y);
      ZerosInjective(|x|, Xor(c, Pack(x)), Xor(c, Pack(y)));
      XorCancel(c, Pack(x), Pack(y));
      PackInjective(x, y);
    }
  }

  lemma XorCancel(c: Reg, a: Reg, b: Reg)
    requires Xor(c, a) == Xor(c, b)
    ensures a == b
  {
    XorAssoc(c, c, a);
    XorAssoc(c, c, b);
    XorNil(c);
    XorNil(a);
    XorNil(b);
  }

  lemma {:induction false} CrcBitsInjective(a: Reg, b: Reg, bits: seq<bool>)
    requires CrcBits(a, bits) == CrcBits(b, bits)
    ensures a == b
    decreases |bits|
  {
    if bits != [] {
      var d := Bit(bits[0]);
      CrcBitsInjective(Shift(Xor(a, d)), Shift(Xor(b, d)), bits[1..]);
      ShiftInjective(Xor(a, d), Xor(b, d));
      XorComm(a, d);
      XorComm(b, d);
      XorCancel(d, a, b);
    }
  }

  /** The CRC of a concatenation from the CRCs of its parts: the first one multiplied
      by x to the number of bits of the second part, plus the second one. */
  lemma CrcOfConcat(s: seq<bv8>, t: seq<bv8>)
    ensures Crc(Nil, s + t) == Xor(Zeros(8 * |t|, Crc(Nil, s)), Crc(Nil, t))
  {
    var one := Xor(Nil, AllOnes);
    var rs, rt := Feed(one, s), Feed(one, t);
    FeedConcat(one, s, t);
    MessageConcat(t, []);
    XorNil(one);
    // rs == (rs + one) + one
    XorAssoc(rs, one, one);
    XorNil(rs);
    Superposition(Xor(rs, one), one, Message(t));
    XorNil(AllOnes);
    XorAssoc(Zeros(8 * |t|, Xor(rs, one)), rt, AllOnes);
  }

  /** A CRC may be computed piece by piece. */
  lemma CrcOfPieces(c: Reg, s: seq<bv8>, t: seq<bv8>)
    ensures Crc(c, s + t) == Crc(Crc(c, s), t)
  {
    var r := Feed(Xor(c, AllOnes), s);
    FeedConcat(Xor(c, AllOnes), s, t);
    XorAssoc(r, AllOnes, AllOnes);
    XorNil(AllOnes);
    XorNil(r);
  }
}
