/** The table-driven CRC-32 routines of crc32.c, proved against the bit-serial register. */
module Crc32 {
  import opened Crc32Register

  // ---- bytes and words ----

  function ByteReg(b: bv8): Reg { Reg(b as bv32) }

  lemma PushBitWord(x: bv8)
    ensures XorWord(Bit(x & 1 != 0).w, TwiceWord(HalfByte(x) as bv32)) == x as bv32
  {}

  lemma PushBit(x: bv8)
    ensures Xor(Bit(x & 1 != 0), Twice(ByteReg(HalfByte(x)))) == ByteReg(x)
  {
    PushBitWord(x);
  }

  function HalfByteN(n: nat, b: bv8): bv8 {
    if n == 0 then b else HalfByteN(n - 1, HalfByte(b))
  }

  lemma EightHalves(b: bv8)
    ensures HalfByte(HalfByte(HalfByte(HalfByte(HalfByte(HalfByte(HalfByte(HalfByte(b)))))))) == 0
  {}

  lemma HalvedAway(b: bv8)
    ensures HalfByteN(8, b) == 0
  {
    var b2 := HalfByte(HalfByte(b));
    var b4 := HalfByte(HalfByte(b2));
    var b6 := HalfByte(HalfByte(b4));
    EightHalves(b);
    assert HalfByteN(6, b2) == HalfByteN(4, b4) by { assert HalfByteN(5, HalfByte(b2)) == HalfByteN(4, b4); }
    assert HalfByteN(4, b4) == HalfByteN(2, b6) by { assert HalfByteN(3, HalfByte(b4)) == HalfByteN(2, b6); }
    assert HalfByteN(8, b) == HalfByteN(6, b2) by { assert HalfByteN(7, HalfByte(b)) == HalfByteN(6, b2); }
    assert HalfByteN(2, b6) == HalfByte(HalfByte(b6)) by {
      assert HalfByteN(1, HalfByte(b6)) == HalfByteN(0, HalfByte(HalfByte(b6)));
    }
  }

  lemma {:induction false} PackLowBits(b: bv8, n: nat)
    requires HalfByteN(n, b) == 0
    ensures Pack(LowBits(b, n)) == ByteReg(b)
  {
    if n > 0 {
      PackLowBits(HalfByte(b), n - 1);
      PushBit(b);
      assert LowBits(b, n)[1..] == LowBits(HalfByte(b), n - 1);
    }
  }

  lemma PackByte(b: bv8)
    ensures Pack(BitsOf(b)) == ByteReg(b)
  {
    HalvedAway(b);
    PackLowBits(b, 8);
  }

  lemma FeedByte(r: Reg, b: bv8)
    ensures Feed(r, [b]) == Zeros(8, Xor(r, ByteReg(b)))
  {
    assert Message([b]) == BitsOf(b) + Message([]) == BitsOf(b);
    PackedInput(r, BitsOf(b));
    PackByte(b);
  }

  /** Multiplying by a plain power of two and by the same power of x cancel. */
  lemma {:induction false} ZerosOfTwiceN(n: nat, r: Reg)
    requires Clear(r, n)
    ensures Zeros(n, TwiceN(n, r)) == r
  {
    if n > 0 {
      OnesAreLow(n - 1);
      WiderMask(r.w, Ones(n - 1));
      TwiceNClear(n - 1, 1, r);
      ShiftTwice(TwiceN(n - 1, r));
      ZerosOfTwiceN(n - 1, r);
    }
  }

  lemma {:induction false} PackConcat(x: seq<bool>, y: seq<bool>)
    ensures Pack(x + y) == Xor(Pack(x), TwiceN(|x|, Pack(y)))
  {
    if x == [] {
      assert x + y == y;
      XorNil(Pack(y));
    } else {
      assert (x + y)[1..] == x[1..] + y;
      var d, p, q := Bit(x[0]), Pack(x[1..]), TwiceN(|x| - 1, Pack(y));
      PackConcat(x[1..], y);
      TwiceLinear(p, q);
      XorAssoc(d, Twice(p), Twice(q));
    }
  }

  function ByteUp(w: bv32): bv32 { w << 8 }

  lemma EightTwice(w: bv32)
    ensures TwiceWord(TwiceWord(TwiceWord(TwiceWord(TwiceWord(TwiceWord(TwiceWord(TwiceWord(w)))))))) == ByteUp(w)
  {}

  lemma TwiceTwo(n: nat, r: Reg, w: bv32)
    requires TwiceN(n, r) == Reg(w)
    ensures TwiceN(n + 2, r) == Reg(TwiceWord(TwiceWord(w)))
  {
    assert TwiceN(n + 1, r) == Reg(TwiceWord(w));
  }

  lemma TwiceEight(r: Reg)
    ensures TwiceN(8, r) == Reg(ByteUp(r.w))
  {
    var w2 := TwiceWord(TwiceWord(r.w));
    var w4 := TwiceWord(TwiceWord(w2));
    var w6 := TwiceWord(TwiceWord(w4));
    TwiceTwo(0, r, r.w);
    TwiceTwo(2, r, w2);
    TwiceTwo(4, r, w4);
    TwiceTwo(6, r, w6);
    EightTwice(r.w);
  }

  function LowByte(v: bv32): bv32 { v & 0xff }

  function ByteDown(v: bv32): bv32 { v >> 8 }

  lemma SplitWord(v: bv32)
    ensures XorWord(LowByte(v), ByteUp(ByteDown(v))) == v
    ensures Within(ByteDown(v), 0x00ff_ffff)
  {}

  /** One table step: the low byte goes through eight zero bits, the rest moves down. */
  lemma ZerosByByte(v: bv32)
    ensures Zeros(8, Reg(v)) == Xor(Zeros(8, Reg(LowByte(v))), Reg(ByteDown(v)))
  {
    SplitWord(v);
    var lo, hi := Reg(LowByte(v)), Reg(ByteDown(v));
    TwiceEight(hi);
    OnesStep(0, 0xffff_ffff);
    OnesStep(4, 0x0fff_ffff);
    ZerosOfTwiceN(8, hi);
    ZerosLinear(8, lo, TwiceN(8, hi));
  }

  lemma ZerosByByteThen(n: nat, v: bv32)
    ensures Zeros(8 + n, Reg(v)) == Xor(Zeros(8 + n, Reg(LowByte(v))), Zeros(n, Reg(ByteDown(v))))
  {
    ZerosByByte(v);
    ZerosCompose(8, n, Reg(v));
    ZerosCompose(8, n, Reg(LowByte(v)));
    ZerosLinear(n, Zeros(8, Reg(LowByte(v))), Reg(ByteDown(v)));
  }

  // ---- the tables ----

  /** Exponents of the CRC polynomial without x^32 (crc32.c, line 95). */
  const TERMS: seq<nat> := [0, 1, 2, 4, 5, 7, 8, 10, 11, 12, 16, 22, 23, 26]

  function Term(k: nat): bv32
    requires k < 32
  {
    (1 as bv32) << (31 - k)
  }

  function PolyOf(n: nat): bv32
    requires n <= |TERMS|
  {
    if n == 0 then 0 else PolyOf(n - 1) | Term(TERMS[n - 1])
  }

  lemma TermValues()
    ensures Term(0) == 0x8000_0000 && Term(1) == 0x4000_0000 && Term(2) == 0x2000_0000 && Term(4) == 0x0800_0000
    ensures Term(5) == 0x0400_0000 && Term(7) == 0x0100_0000 && Term(8) == 0x0080_0000 && Term(10) == 0x0020_0000
    ensures Term(11) == 0x0010_0000 && Term(12) == 0x0008_0000 && Term(16) == 0x8000 && Term(22) == 0x0200
    ensures Term(23) == 0x0100 && Term(26) == 0x0020
  {}

  lemma PolyStep(n: nat, w: bv32, term: bv32, sum: bv32)
    requires n < |TERMS| && PolyOf(n) == w && Term(TERMS[n]) == term && w | term == sum
    ensures PolyOf(n + 1) == sum
  {}

  lemma PolyOfTermsStart()
    ensures PolyOf(5) == 0xec00_0000
  {
    TermValues();
    PolyStep(0, 0, 0x8000_0000, 0x8000_0000);
    PolyStep(1, 0x8000_0000, 0x4000_0000, 0xc000_0000);
    PolyStep(2, 0xc000_0000, 0x2000_0000, 0xe000_0000);
    PolyStep(3, 0xe000_0000, 0x0800_0000, 0xe800_0000);
    PolyStep(4, 0xe800_0000, 0x0400_0000, 0xec00_0000);
  }

  lemma PolyOfTermsMiddle()
    ensures PolyOf(5) == 0xec00_0000 ==> PolyOf(10) == 0xedb8_0000
  {
    TermValues();
    if PolyOf(5) == 0xec00_0000 {
      PolyStep(5, 0xec00_0000, 0x0100_0000, 0xed00_0000);
      PolyStep(6, 0xed00_0000, 0x0080_0000, 0xed80_0000);
      PolyStep(7, 0xed80_0000, 0x0020_0000, 0xeda0_0000);
      PolyStep(8, 0xeda0_0000, 0x0010_0000, 0xedb0_0000);
      PolyStep(9, 0xedb0_0000, 0x0008_0000, 0xedb8_0000);
    }
  }

  lemma PolyOfTerms()
    ensures PolyOf(|TERMS|) == POLY
  {
    PolyOfTermsStart();
    PolyOfTermsMiddle();
    TermValues();
    PolyStep(10, 0xedb8_0000, 0x8000, 0xedb8_8000);
    PolyStep(11, 0xedb8_8000, 0x0200, 0xedb8_8200);
    PolyStep(12, 0xedb8_8200, 0x0100, 0xedb8_8300);
    PolyStep(13, 0xedb8_8300, 0x0020, 0xedb8_8320);
  }

  /** Reverse the bytes of a word (ZSWAP32). */
  function Swap(q: bv32): bv32 {
    ((q >> 24) & 0xff) + ((q >> 8) & 0xff00) + ((q & 0xff00) << 8) + ((q & 0xff) << 24)
  }

  /** Row k holds each byte followed by k zero bytes; row k + 4 holds the same, byte-swapped. */
  ghost predicate IsTable(t: array2<bv32>)
    reads t
  {
    t.Length0 == 8 && t.Length1 == 256 && forall n :: 0 <= n < 256 ==> ColumnDone(t, 4, n)
  }

  function IndexReg(n: int): Reg
    requires 0 <= n < 256
  {
    Reg(n as bv32)
  }

  ghost predicate TableEntry(e: bv32, k: nat, n: int)
    requires 0 <= n < 256
  {
    Reg(e) == Zeros(8 * (k + 1), IndexReg(n))
  }

  lemma WordRoundTrip(w: bv32)
    ensures (w as int) as bv32 == w
  {}

  lemma LowByteBound(w: bv32)
    ensures LowByte(w) as int < 256
  {}

  function Low(w: bv32): (n: nat)
    ensures n < 256
  {
    LowByteBound(w);
    LowByte(w) as int
  }

  lemma LowExact(w: bv32)
    ensures IndexReg(Low(w)) == Reg(LowByte(w))
  {
    WordRoundTrip(LowByte(w));
  }

  /** The first n entries of the byte table are in place. */
  ghost predicate FirstRowDone(t: array2<bv32>, n: int)
    requires t.Length0 == 8 && t.Length1 == 256 && 0 <= n <= 256
    reads t
  {
    forall m :: 0 <= m < n ==> TableEntry(t[0, m], 0, m)
  }

  /** Column n is in place in rows 0 to k - 1 and in their reversals. */
  ghost predicate ColumnDone(t: array2<bv32>, k: nat, n: int)
    requires t.Length0 == 8 && t.Length1 == 256 && k <= 4 && 0 <= n < 256
    reads t
  {
    forall j :: 0 <= j < k ==> TableEntry(t[j, n], j, n) && t[j + 4, n] == Swap(t[j, n])
  }

  lemma NextEntry(c: bv32, e: bv32, k: nat, n: int)
    requires 0 <= n < 256 && TableEntry(c, k, n)
    requires Reg(e) == Zeros(8, Reg(LowByte(c)))
    ensures TableEntry(XorWord(e, ByteDown(c)), k + 1, n)
  {
    ZerosByByte(c);
    ZerosCompose(8 * (k + 1), 8, IndexReg(n));
  }

  /** The exclusive-or pattern, collected from the exponents. */
  method MakePoly() returns (poly: bv32)
    ensures poly == POLY
  {
    poly := 0;
    var n := 0;
    while n < |TERMS|
      invariant 0 <= n <= |TERMS| && poly == PolyOf(n)
    {
      poly := poly | Term(TERMS[n]);
      n := n + 1;
    }
    PolyOfTerms();
  }

  /** A CRC for every 8-bit value. */
  method MakeFirstRow(t: array2<bv32>, poly: bv32)
    requires t.Length0 == 8 && t.Length1 == 256 && poly == POLY
    modifies t
    ensures FirstRowDone(t, 256)
  {
    hide TableEntry, Zeros, IndexReg;
    var n := 0;
    while n < 256
      invariant 0 <= n <= 256 && FirstRowDone(t, n)
    {
      var c := ByteEntry(poly, n);
      t[0, n] := c;
      n := n + 1;
    }
  }

  /** make_crc_table: the byte table, then the rows for bytes followed by zeros and their
      byte reversals. */
  method MakeCrcTable(t: array2<bv32>)
    requires t.Length0 == 8 && t.Length1 == 256
    modifies t
    ensures IsTable(t)
  {
    var poly := MakePoly();
    MakeFirstRow(t, poly);
    var n := 0;
    while n < 256
      invariant 0 <= n <= 256
      invariant FirstRowDone(t, 256)
      invariant forall m :: 0 <= m < n ==> ColumnDone(t, 4, m)
    {
      MakeColumn(t, n);
      n := n + 1;
    }
  }

  lemma BitStep(k: nat, c: bv32)
    requires k > 0
    ensures Zeros(k, Reg(c)) == Zeros(k - 1, Reg(ShiftWord(c)))
  {}

  /** Eight bits of one table entry. */
  method ByteEntry(poly: bv32, n: int) returns (c: bv32)
    requires poly == POLY && 0 <= n < 256
    ensures TableEntry(c, 0, n)
  {
    c := n as bv32;
    var k := 0;
    while k < 8
      invariant 0 <= k <= 8
      invariant Zeros(8 - k, Reg(c)) == Zeros(8, IndexReg(n))
    {
      BitStep(8 - k, c);
      c := if c & 1 == 1 then poly ^ (c >> 1) else c >> 1;
      k := k + 1;
    }
  }

  /** The other seven entries of one column. */
  method MakeColumn(t: array2<bv32>, n: int)
    requires t.Length0 == 8 && t.Length1 == 256 && 0 <= n < 256 && FirstRowDone(t, 256)
    modifies t
    ensures FirstRowDone(t, 256) && ColumnDone(t, 4, n)
    ensures forall m :: 0 <= m < 256 && m != n && old(ColumnDone(t, 4, m)) ==> ColumnDone(t, 4, m)
  {
    var c := t[0, n];
    assert TableEntry(c, 0, n);
    t[4, n] := Swap(c);
    var k := 1;
    while k < 4
      invariant 1 <= k <= 4 && c == t[k - 1, n]
      invariant FirstRowDone(t, 256) && ColumnDone(t, k, n)
      invariant forall j, m :: 0 <= j < 8 && 0 <= m < 256 && m != n ==> t[j, m] == old(t[j, m])
    {
      assert TableEntry(c, k - 1, n);
      var e := t[0, Low(c)];
      LowExact(c);
      assert TableEntry(e, 0, Low(c));
      NextEntry(c, e, k - 1, n);
      c := XorWord(e, ByteDown(c));
      PutEntry(t, k, n, c);
      k := k + 1;
    }
  }

  method PutEntry(t: array2<bv32>, k: nat, n: int, c: bv32)
    requires t.Length0 == 8 && t.Length1 == 256 && 1 <= k < 4 && 0 <= n < 256
    requires ColumnDone(t, k, n) && TableEntry(c, k, n) && FirstRowDone(t, 256)
    modifies t
    ensures ColumnDone(t, k + 1, n) && t[k, n] == c && FirstRowDone(t, 256)
    ensures forall j, m :: 0 <= j < 8 && 0 <= m < 256 && m != n ==> t[j, m] == old(t[j, m])
  {
    hide TableEntry, Swap;
    t[k, n] := c;
    t[k + 4, n] := Swap(c);
  }

  /** Index a row of the table by the low byte of a word. */
  method Look(t: array2<bv32>, k: nat, w: bv32) returns (e: bv32)
    requires IsTable(t) && k < 4
    ensures e == t[k, Low(w)] && Reg(e) == Zeros(8 * (k + 1), Reg(LowByte(w)))
  {
    var n := Low(w);
    e := t[k, n];
    assert ColumnDone(t, 4, n);
    LowExact(w);
    assert TableEntry(e, k, n);
  }

  lemma NextWord(c: bv32, b: bv8)
    ensures ByteDown(XorWord(c, b as bv32)) == ByteDown(c)
  {}

  lemma StepByte(c: bv32, b: bv8, e: bv32)
    requires Reg(e) == Zeros(8, Reg(LowByte(XorWord(c, b as bv32))))
    ensures Reg(XorWord(e, ByteDown(c))) == Feed(Reg(c), [b])
  {
    NextWord(c, b);
    ZerosByByte(XorWord(c, b as bv32));
    FeedByte(Reg(c), b);
  }

  /** DO1: one byte through the first table. */
  method Do1(t: array2<bv32>, crc: bv32, b: bv8) returns (c: bv32)
    requires IsTable(t)
    ensures Reg(c) == Feed(Reg(crc), [b])
  {
    var e := Look(t, 0, XorWord(crc, b as bv32));
    c := XorWord(e, ByteDown(crc));
    StepByte(crc, b, e);
  }

  // ---- four bytes at a time ----

  /** The 32-bit load of four bytes on a little-endian machine, and on a big-endian one. */
  function LittleWord(b0: bv8, b1: bv8, b2: bv8, b3: bv8): bv32 {
    (b0 as bv32) | ((b1 as bv32) << 8) | ((b2 as bv32) << 16) | ((b3 as bv32) << 24)
  }

  function BigWord(b0: bv8, b1: bv8, b2: bv8, b3: bv8): bv32 {
    LittleWord(b3, b2, b1, b0)
  }

  lemma LittleWordByBytes(b0: bv8, b1: bv8, b2: bv8, b3: bv8)
    ensures XorWord(b0 as bv32, ByteUp(XorWord(b1 as bv32, ByteUp(XorWord(b2 as bv32, ByteUp(b3 as bv32))))))
         == LittleWord(b0, b1, b2, b3)
  {}

  lemma PackCons(b: bv8, s: seq<bv8>)
    ensures Pack(Message([b] + s)) == Xor(ByteReg(b), Reg(ByteUp(Pack(Message(s)).w)))
  {
    assert ([b] + s)[1..] == s;
    PackConcat(BitsOf(b), Message(s));
    PackByte(b);
    TwiceEight(Pack(Message(s)));
  }

  lemma PackFour(b0: bv8, b1: bv8, b2: bv8, b3: bv8)
    ensures Pack(Message([b0, b1, b2, b3])) == Reg(LittleWord(b0, b1, b2, b3))
  {
    assert [b0, b1, b2, b3] == [b0] + [b1, b2, b3];
    assert [b1, b2, b3] == [b1] + [b2, b3];
    assert [b2, b3] == [b2] + [b3];
    PackCons(b0, [b1, b2, b3]);
    PackCons(b1, [b2, b3]);
    PackCons(b2, [b3]);
    assert Message([b3]) == BitsOf(b3);
    PackByte(b3);
    LittleWordByBytes(b0, b1, b2, b3);
  }

  lemma FeedFour(r: Reg, b0: bv8, b1: bv8, b2: bv8, b3: bv8)
    ensures Feed(r, [b0, b1, b2, b3]) == Zeros(32, Xor(r, Reg(LittleWord(b0, b1, b2, b3))))
  {
    MessageConcat([b0, b1, b2, b3], []);
    PackedInput(r, Message([b0, b1, b2, b3]));
    PackFour(b0, b1, b2, b3);
  }

  lemma DownFour(v: bv32)
    ensures ByteDown(ByteDown(ByteDown(ByteDown(v)))) == 0
  {}

  lemma {:induction false} ZerosOfWord(v: bv32, e3: Reg, e2: Reg, e1: Reg, e0: Reg)
    requires e3 == Zeros(32, Reg(LowByte(v)))
    requires e2 == Zeros(24, Reg(LowByte(ByteDown(v))))
    requires e1 == Zeros(16, Reg(LowByte(ByteDown(ByteDown(v)))))
    requires e0 == Zeros(8, Reg(LowByte(ByteDown(ByteDown(ByteDown(v))))))
    ensures Xor(Xor(Xor(e3, e2), e1), e0) == Zeros(32, Reg(v))
  {
    var v1 := ByteDown(v);
    var v2 := ByteDown(v1);
    var v3 := ByteDown(v2);
    DownFour(v);
    ZerosByByteThen(24, v);
    ZerosByByteThen(16, v1);
    ZerosByByteThen(8, v2);
    ZerosByByteThen(0, v3);
    XorNil(e0);
    XorAssoc(e3, e2, Xor(e1, e0));
    XorAssoc(Xor(e3, e2), e1, e0);
  }

  /** DOLIT4 after the word has been added: four looks in the first four rows. */
  method LookFour(t: array2<bv32>, v: bv32) returns (c: bv32)
    requires IsTable(t)
    ensures Reg(c) == Zeros(32, Reg(v))
  {
    var e3 := Look(t, 3, v);
    var e2 := Look(t, 2, ByteDown(v));
    var e1 := Look(t, 1, ByteDown(ByteDown(v)));
    var e0 := Look(t, 0, ByteDown(ByteDown(ByteDown(v))));
    ZerosOfWord(v, Reg(e3), Reg(e2), Reg(e1), Reg(e0));
    c := XorWord(XorWord(XorWord(e3, e2), e1), e0);
  }

  method DoLit4(t: array2<bv32>, crc: bv32, b0: bv8, b1: bv8, b2: bv8, b3: bv8) returns (c: bv32)
    requires IsTable(t)
    ensures Reg(c) == Feed(Reg(crc), [b0, b1, b2, b3])
  {
    FeedFour(Reg(crc), b0, b1, b2, b3);
    c := LookFour(t, XorWord(crc, LittleWord(b0, b1, b2, b3)));
  }

  // ---- the byte-swapped state of the big-endian routine ----

  function SwapBits(q: bv32): bv32 {
    (q >> 24) | ((q >> 8) & 0xff00) | ((q << 8) & 0xff_0000) | (q << 24)
  }

  lemma SwapIsSwapBits(q: bv32)
    ensures Swap(q) == SwapBits(q)
  {}

  lemma SwapBitsLinear(a: bv32, b: bv32)
    ensures SwapBits(XorWord(a, b)) == XorWord(SwapBits(a), SwapBits(b))
  {}

  lemma SwapLinear(a: bv32, b: bv32)
    ensures Swap(XorWord(a, b)) == XorWord(Swap(a), Swap(b))
  {
    SwapIsSwapBits(a);
    SwapIsSwapBits(b);
    SwapIsSwapBits(XorWord(a, b));
    SwapBitsLinear(a, b);
  }

  lemma SwapBitsTwice(a: bv32)
    ensures SwapBits(SwapBits(a)) == a
  {}

  lemma SwapTwice(a: bv32)
    ensures Swap(Swap(a)) == a
  {
    SwapIsSwapBits(a);
    SwapIsSwapBits(Swap(a));
    SwapBitsTwice(a);
  }

  function TopByte(v: bv32): bv32 { v >> 24 }

  lemma SwapBitsLow(a: bv32)
    ensures LowByte(SwapBits(a)) == TopByte(a) && TopByte(SwapBits(a)) == LowByte(a)
    ensures LowByte(ByteDown(ByteDown(ByteDown(a)))) == TopByte(a)
  {}

  lemma SwapBitsDown(a: bv32)
    ensures ByteUp(SwapBits(a)) == SwapBits(ByteDown(a))
  {
    var m := ((a >> 16) & 0xff00) | (a & 0xff_0000) | ((a << 16) & 0xff00_0000);
    assert ByteUp(SwapBits(a)) == m;
    assert SwapBits(ByteDown(a)) == m;
  }

  lemma SwapBitsMiddle(a: bv32)
    ensures LowByte(ByteDown(SwapBits(a))) == LowByte(ByteDown(ByteDown(a)))
    ensures LowByte(ByteDown(ByteDown(SwapBits(a)))) == LowByte(ByteDown(a))
  {}

  lemma SwapLoad(b0: bv8, b1: bv8, b2: bv8, b3: bv8)
    ensures Swap(LittleWord(b0, b1, b2, b3)) == BigWord(b0, b1, b2, b3)
  {}

  lemma SwapOnes(a: bv32)
    ensures Swap(XorWord(a, 0xffff_ffff)) == XorWord(Swap(a), 0xffff_ffff)
  {
    SwapLinear(a, 0xffff_ffff);
    assert Swap(0xffff_ffff) == 0xffff_ffff;
  }

  /** Index a byte-swapped row. */
  method LookSwapped(t: array2<bv32>, k: nat, w: bv32) returns (e: bv32, ghost plain: bv32)
    requires IsTable(t) && k < 4
    ensures e == Swap(plain) && Reg(plain) == Zeros(8 * (k + 1), Reg(LowByte(w)))
  {
    e := t[k + 4, Low(w)];
    plain := Look(t, k, w);
    assert ColumnDone(t, 4, Low(w));
  }

  lemma TopXor(r: bv32, b: bv8)
    ensures LowByte(XorWord(LowByte(r), b as bv32)) == XorWord(LowByte(r), b as bv32)
    ensures LowByte(XorWord(r, b as bv32)) == XorWord(LowByte(r), b as bv32)
  {}

  lemma SwappedStep(c: bv32, r: bv32, b: bv8, plain: bv32)
    requires r == Swap(c) && Reg(plain) == Zeros(8, Reg(LowByte(XorWord(TopByte(c), b as bv32))))
    ensures Reg(Swap(XorWord(Swap(plain), ByteUp(c)))) == Feed(Reg(r), [b])
  {
    SwapTwice(c);
    SwapIsSwapBits(r);
    SwapIsSwapBits(ByteDown(r));
    SwapBitsLow(r);
    SwapBitsDown(r);
    TopXor(r, b);
    StepByte(r, b, plain);
    SwapLinear(plain, ByteDown(r));
    SwapTwice(XorWord(plain, ByteDown(r)));
  }

  /** One byte through the fifth table, on a byte-swapped register. */
  method DoBig1(t: array2<bv32>, crc: bv32, b: bv8) returns (c: bv32)
    requires IsTable(t)
    ensures Reg(Swap(c)) == Feed(Reg(Swap(crc)), [b])
  {
    var e, plain := LookSwapped(t, 0, XorWord(TopByte(crc), b as bv32));
    SwappedStep(crc, Swap(crc), b, plain);
    c := XorWord(e, ByteUp(crc));
  }

  lemma XorReverse(a: Reg, b: Reg, c: Reg, d: Reg)
    ensures Xor(Xor(Xor(a, b), c), d) == Xor(Xor(Xor(d, c), b), a)
  {
    XorComm(a, b);
    XorAssoc(b, a, c);
    XorComm(a, c);
    XorComm(b, Xor(c, a));
    XorAssoc(c, a, b);
    XorComm(a, b);
    XorAssoc(c, b, a);
    XorComm(Xor(Xor(c, b), a), d);
    XorAssoc(d, Xor(c, b), a);
    XorAssoc(d, c, b);
  }

  lemma SwapFour(e0: bv32, e1: bv32, e2: bv32, e3: bv32)
    ensures XorWord(XorWord(XorWord(Swap(e0), Swap(e1)), Swap(e2)), Swap(e3))
         == Swap(XorWord(XorWord(XorWord(e3, e2), e1), e0))
  {
    SwapLinear(e0, e1);
    SwapLinear(XorWord(e0, e1), e2);
    SwapLinear(XorWord(XorWord(e0, e1), e2), e3);
    XorReverse(Reg(e0), Reg(e1), Reg(e2), Reg(e3));
  }

  lemma SwappedBytes(v: bv32, u: bv32)
    requires v == Swap(u)
    ensures LowByte(v) == LowByte(ByteDown(ByteDown(ByteDown(u))))
    ensures LowByte(ByteDown(v)) == LowByte(ByteDown(ByteDown(u)))
    ensures LowByte(ByteDown(ByteDown(v))) == LowByte(ByteDown(u))
    ensures LowByte(TopByte(v)) == LowByte(u)
  {
    SwapIsSwapBits(u);
    SwapBitsLow(u);
    SwapBitsMiddle(u);
    LowByteTwice(u);
  }

  lemma LowByteTwice(u: bv32)
    ensures LowByte(LowByte(u)) == LowByte(u)
  {}

  /** DOBIG4 after the word has been added. */
  method LookFourSwapped(t: array2<bv32>, v: bv32) returns (c: bv32)
    requires IsTable(t)
    ensures Reg(Swap(c)) == Zeros(32, Reg(Swap(v)))
  {
    ghost var u := Swap(v);
    SwapTwice(v);
    SwappedBytes(v, u);
    var s0, e0 := LookSwapped(t, 0, v);
    var s1, e1 := LookSwapped(t, 1, ByteDown(v));
    var s2, e2 := LookSwapped(t, 2, ByteDown(ByteDown(v)));
    var s3, e3 := LookSwapped(t, 3, TopByte(v));
    ZerosOfWord(u, Reg(e3), Reg(e2), Reg(e1), Reg(e0));
    SwapFour(e0, e1, e2, e3);
    SwapTwice(XorWord(XorWord(XorWord(e3, e2), e1), e0));
    c := XorWord(XorWord(XorWord(s0, s1), s2), s3);
  }

  method DoBig4(t: array2<bv32>, crc: bv32, b0: bv8, b1: bv8, b2: bv8, b3: bv8) returns (c: bv32)
    requires IsTable(t)
    ensures Reg(Swap(c)) == Feed(Reg(Swap(crc)), [b0, b1, b2, b3])
  {
    FeedFour(Reg(Swap(crc)), b0, b1, b2, b3);
    SwapTwice(LittleWord(b0, b1, b2, b3));
    SwapLoad(b0, b1, b2, b3);
    SwapLinear(crc, BigWord(b0, b1, b2, b3));
    c := LookFourSwapped(t, XorWord(crc, BigWord(b0, b1, b2, b3)));
  }

  // ---- the complements before and after ----

  /** The register after n zero bits. */
  lemma EightZeros(c: bv32, c1: bv32, c2: bv32, c3: bv32, c4: bv32, c5: bv32, c6: bv32, c7: bv32, c8: bv32)
    requires ShiftWord(c) == c1 && ShiftWord(c1) == c2 && ShiftWord(c2) == c3 && ShiftWord(c3) == c4
    requires ShiftWord(c4) == c5 && ShiftWord(c5) == c6 && ShiftWord(c6) == c7 && ShiftWord(c7) == c8
    ensures Zeros(8, Reg(c)) == Reg(c8)
  {
    hide ShiftWord;
    TwoZeros(Reg(c), Reg(c2));
    TwoZeros(Reg(c2), Reg(c4));
    TwoZeros(Reg(c4), Reg(c6));
    TwoZeros(Reg(c6), Reg(c8));
    ZerosCompose(2, 2, Reg(c));
    ZerosCompose(2, 2, Reg(c4));
    ZerosCompose(4, 4, Reg(c));
  }

  lemma TwoZeros(r: Reg, s: Reg)
    requires Shift(Shift(r)) == s
    ensures Zeros(2, r) == s
  {
    hide ShiftWord;
    assert Zeros(1, Shift(r)) == Zeros(0, Shift(Shift(r)));
  }

  lemma ZerosOfOnes()
    ensures Zeros(8, AllOnes) == Reg(0x2dfd_1072)
    ensures Zeros(32, AllOnes) == Reg(0xdebb_20e3)
  {
    hide Zeros;
    EightZeros(0xffff_ffff, 0x9247_7cdf, 0xa49b_3d4f, 0xbff5_1d87, 0xb242_0de3, 0xb499_85d1, 0xb7f4_41c8, 0x5bfa_20e4, 0x2dfd_1072);
    EightZeros(0x2dfd_1072, 0x16fe_8839, 0xe6c7_c73c, 0x7363_e39e, 0x39b1_f1cf, 0xf160_7bc7, 0x9508_bec3, 0xa73c_dc41, 0xbe26_ed00);
    EightZeros(0xbe26_ed00, 0x5f13_7680, 0x2f89_bb40, 0x17c4_dda0, 0x0be2_6ed0, 0x05f1_3768, 0x02f8_9bb4, 0x017c_4dda, 0x00be_26ed);
    EightZeros(0x00be_26ed, 0xede7_9056, 0x76f3_c82b, 0xd6c1_6735, 0x86d8_30ba, 0x436c_185d, 0xcc0e_8f0e, 0x6607_4787, 0xdebb_20e3);
    ZerosCompose(8, 8, AllOnes);
    ZerosCompose(16, 8, AllOnes);
    ZerosCompose(24, 8, AllOnes);
  }

  /** The CRC of one zero byte. */
  lemma CrcOfZero()
    ensures Crc(Nil, [0]) == Reg(0xd202_ef8d)
  {
    hide Zeros;
    XorNil(AllOnes);
    FeedByte(AllOnes, 0);
    ZerosOfOnes();
  }

  /** A message followed by its own CRC, least significant byte first, always has this CRC. */
  lemma CrcOfMessageAndCrc(s: seq<bv8>, b0: bv8, b1: bv8, b2: bv8, b3: bv8)
    requires Reg(LittleWord(b0, b1, b2, b3)) == Crc(Nil, s)
    ensures Crc(Nil, s + [b0, b1, b2, b3]) == Reg(0x2144_df1c)
  {
    hide Zeros, LittleWord, Feed;
    var r := Feed(AllOnes, s);
    XorNil(AllOnes);
    FeedConcat(AllOnes, s, [b0, b1, b2, b3]);
    FeedFour(r, b0, b1, b2, b3);
    XorAssoc(r, r, AllOnes);
    XorNil(r);
    ZerosOfOnes();
  }

  // ---- whole buffers ----

  lemma Grow(start: Reg, buf: array<bv8>, i: nat, n: nat)
    requires i + n <= buf.Length
    ensures Feed(start, buf[..i + n]) == Feed(Feed(start, buf[..i]), buf[i..i + n])
  {
    assert buf[..i + n] == buf[..i] + buf[i..i + n];
    FeedConcat(start, buf[..i], buf[i..i + n]);
  }

  /** DO1 on the next byte of the buffer. */
  method Do1At(t: array2<bv32>, crc: bv32, buf: array<bv8>, i: nat, ghost start: Reg) returns (c: bv32)
    requires IsTable(t) && i + 1 <= buf.Length && Reg(crc) == Feed(start, buf[..i])
    ensures Reg(c) == Feed(start, buf[..i + 1])
  {
    Grow(start, buf, i, 1);
    assert buf[i..i + 1] == [buf[i]];
    c := Do1(t, crc, buf[i]);
  }

  /** DO8: eight bytes, one at a time. */
  method Do8At(t: array2<bv32>, crc: bv32, buf: array<bv8>, i: nat, ghost start: Reg) returns (c: bv32)
    requires IsTable(t) && i + 8 <= buf.Length && Reg(crc) == Feed(start, buf[..i])
    ensures Reg(c) == Feed(start, buf[..i + 8])
  {
    c := Do1At(t, crc, buf, i, start);
    c := Do1At(t, c, buf, i + 1, start);
    c := Do1At(t, c, buf, i + 2, start);
    c := Do1At(t, c, buf, i + 3, start);
    c := Do1At(t, c, buf, i + 4, start);
    c := Do1At(t, c, buf, i + 5, start);
    c := Do1At(t, c, buf, i + 6, start);
    c := Do1At(t, c, buf, i + 7, start);
  }

  /** DOLIT4: the next four bytes as one little-endian load. */
  method Lit4At(t: array2<bv32>, crc: bv32, buf: array<bv8>, i: nat, ghost start: Reg) returns (c: bv32)
    requires IsTable(t) && i + 4 <= buf.Length && Reg(crc) == Feed(start, buf[..i])
    ensures Reg(c) == Feed(start, buf[..i + 4])
  {
    Grow(start, buf, i, 4);
    assert buf[i..i + 4] == [buf[i], buf[i + 1], buf[i + 2], buf[i + 3]];
    c := DoLit4(t, crc, buf[i], buf[i + 1], buf[i + 2], buf[i + 3]);
  }

  /** DOLIT32: eight loads. */
  method Lit32At(t: array2<bv32>, crc: bv32, buf: array<bv8>, i: nat, ghost start: Reg) returns (c: bv32)
    requires IsTable(t) && i + 32 <= buf.Length && Reg(crc) == Feed(start, buf[..i])
    ensures Reg(c) == Feed(start, buf[..i + 32])
  {
    c := Lit4At(t, crc, buf, i, start);
    c := Lit4At(t, c, buf, i + 4, start);
    c := Lit4At(t, c, buf, i + 8, start);
    c := Lit4At(t, c, buf, i + 12, start);
    c := Lit4At(t, c, buf, i + 16, start);
    c := Lit4At(t, c, buf, i + 20, start);
    c := Lit4At(t, c, buf, i + 24, start);
    c := Lit4At(t, c, buf, i + 28, start);
  }

  /** The next byte on a byte-swapped register. */
  method Big1At(t: array2<bv32>, crc: bv32, buf: array<bv8>, i: nat, ghost start: Reg) returns (c: bv32)
    requires IsTable(t) && i + 1 <= buf.Length && Reg(Swap(crc)) == Feed(start, buf[..i])
    ensures Reg(Swap(c)) == Feed(start, buf[..i + 1])
  {
    Grow(start, buf, i, 1);
    assert buf[i..i + 1] == [buf[i]];
    c := DoBig1(t, crc, buf[i]);
  }

  /** DOBIG4: the next four bytes as one big-endian load. */
  method Big4At(t: array2<bv32>, crc: bv32, buf: array<bv8>, i: nat, ghost start: Reg) returns (c: bv32)
    requires IsTable(t) && i + 4 <= buf.Length && Reg(Swap(crc)) == Feed(start, buf[..i])
    ensures Reg(Swap(c)) == Feed(start, buf[..i + 4])
  {
    Grow(start, buf, i, 4);
    assert buf[i..i + 4] == [buf[i], buf[i + 1], buf[i + 2], buf[i + 3]];
    c := DoBig4(t, crc, buf[i], buf[i + 1], buf[i + 2], buf[i + 3]);
  }

  /** DOBIG32: eight loads. */
  method Big32At(t: array2<bv32>, crc: bv32, buf: array<bv8>, i: nat, ghost start: Reg) returns (c: bv32)
    requires IsTable(t) && i + 32 <= buf.Length && Reg(Swap(crc)) == Feed(start, buf[..i])
    ensures Reg(Swap(c)) == Feed(start, buf[..i + 32])
  {
    c := Big4At(t, crc, buf, i, start);
    c := Big4At(t, c, buf, i + 4, start);
    c := Big4At(t, c, buf, i + 8, start);
    c := Big4At(t, c, buf, i + 12, start);
    c := Big4At(t, c, buf, i + 16, start);
    c := Big4At(t, c, buf, i + 20, start);
    c := Big4At(t, c, buf, i + 24, start);
    c := Big4At(t, c, buf, i + 28, start);
  }

  /** The bytewise loop of crc32_z. */
  method Crc32Bytes(t: array2<bv32>, crc: bv32, buf: array<bv8>, size: nat) returns (r: bv32)
    requires IsTable(t) && size <= buf.Length
    ensures Reg(r) == Crc(Reg(crc), buf[..size])
  {
    var c, i, len := XorWord(crc, 0xffff_ffff), 0, size;
    ghost var start := Reg(c);
    while len >= 8
      invariant i + len == size
      invariant Reg(c) == Feed(start, buf[..i])
    {
      c := Do8At(t, c, buf, i, start);
      i, len := i + 8, len - 8;
    }
    while len > 0
      invariant i + len == size
      invariant Reg(c) == Feed(start, buf[..i])
    {
      c := Do1At(t, c, buf, i, start);
      i, len := i + 1, len - 1;
    }
    r := XorWord(c, 0xffff_ffff);
  }

  /** crc32_little: bytes up to an aligned address, then 32 and 4 at a time, then the rest. */
  method Crc32Little(t: array2<bv32>, crc: bv32, buf: array<bv8>, address: nat, size: nat) returns (r: bv32)
    requires IsTable(t) && size <= buf.Length
    ensures Reg(r) == Crc(Reg(crc), buf[..size])
  {
    var c, i, len := XorWord(crc, 0xffff_ffff), 0, size;
    ghost var start := Reg(c);
    while len > 0 && (address + i) % 4 != 0
      invariant i + len == size
      invariant Reg(c) == Feed(start, buf[..i])
    {
      c := Do1At(t, c, buf, i, start);
      i, len := i + 1, len - 1;
    }
    while len >= 32
      invariant i + len == size
      invariant Reg(c) == Feed(start, buf[..i])
    {
      c := Lit32At(t, c, buf, i, start);
      i, len := i + 32, len - 32;
    }
    while len >= 4
      invariant i + len == size
      invariant Reg(c) == Feed(start, buf[..i])
    {
      c := Lit4At(t, c, buf, i, start);
      i, len := i + 4, len - 4;
    }
    while len > 0
      invariant i + len == size
      invariant Reg(c) == Feed(start, buf[..i])
    {
      c := Do1At(t, c, buf, i, start);
      i, len := i + 1, len - 1;
    }
    r := XorWord(c, 0xffff_ffff);
  }

  /** crc32_big: the same on a byte-swapped register. */
  method Crc32Big(t: array2<bv32>, crc: bv32, buf: array<bv8>, address: nat, size: nat) returns (r: bv32)
    requires IsTable(t) && size <= buf.Length
    ensures Reg(r) == Crc(Reg(crc), buf[..size])
  {
    var c, i, len := XorWord(Swap(crc), 0xffff_ffff), 0, size;
    ghost var start := Reg(XorWord(crc, 0xffff_ffff));
    SwapOnes(crc);
    SwapTwice(XorWord(crc, 0xffff_ffff));
    while len > 0 && (address + i) % 4 != 0
      invariant i + len == size
      invariant Reg(Swap(c)) == Feed(start, buf[..i])
    {
      c := Big1At(t, c, buf, i, start);
      i, len := i + 1, len - 1;
    }
    while len >= 32
      invariant i + len == size
      invariant Reg(Swap(c)) == Feed(start, buf[..i])
    {
      c := Big32At(t, c, buf, i, start);
      i, len := i + 32, len - 32;
    }
    while len >= 4
      invariant i + len == size
      invariant Reg(Swap(c)) == Feed(start, buf[..i])
    {
      c := Big4At(t, c, buf, i, start);
      i, len := i + 4, len - 4;
    }
    while len > 0
      invariant i + len == size
      invariant Reg(Swap(c)) == Feed(start, buf[..i])
    {
      c := Big1At(t, c, buf, i, start);
      i, len := i + 1, len - 1;
    }
    SwapOnes(c);
    r := Swap(XorWord(c, 0xffff_ffff));
  }

  /** crc32_z: a null buffer gives 0, otherwise the routine for this build and machine runs. */
  method Crc32Z(t: array2<bv32>, byFour: bool, littleEndian: bool, crc: bv32, buf: array?<bv8>, address: nat, size: nat)
    returns (r: bv32)
    requires IsTable(t) && (buf != null ==> size <= buf.Length)
    ensures Reg(r) == if buf == null then Nil else Crc(Reg(crc), buf[..size])
  {
    if buf == null { return 0; }
    if byFour {
      if littleEndian {
        r := Crc32Little(t, crc, buf, address, size);
      } else {
        r := Crc32Big(t, crc, buf, address, size);
      }
    } else {
      r := Crc32Bytes(t, crc, buf, size);
    }
  }
}
