/** Combining the CRCs of two pieces: crc32_combine_ of crc32.c as GF(2) matrix powers. */
module Crc32Combine {
  import opened Crc32Register

  /** Matrix times vector: the sum of the columns selected by the bits of v. */
  function Times(m: seq<bv32>, v: bv32): Reg {
    if m == [] then Nil else Xor(if v & 1 == 1 then Reg(m[0]) else Nil, Times(m[1..], HalfWord(v)))
  }

  /** Column i of m is 2^i followed by n zero bits. */
  ghost predicate Appends(m: seq<bv32>, n: nat) {
    |m| == 32 && forall i :: 0 <= i < 32 ==> Reg(m[i]) == Zeros(n, TwiceN(i, Reg(1)))
  }

  lemma {:induction false} TwiceNLinear(n: nat, a: Reg, b: Reg)
    ensures TwiceN(n, Xor(a, b)) == Xor(TwiceN(n, a), TwiceN(n, b))
  {
    if n > 0 {
      TwiceNLinear(n - 1, a, b);
      TwiceLinear(TwiceN(n - 1, a), TwiceN(n - 1, b));
    }
  }

  lemma {:induction false} TwiceNOfNil(n: nat)
    ensures TwiceN(n, Nil) == Nil
  {
    if n > 0 {
      TwiceNOfNil(n - 1);
      assert Twice(Nil) == Nil;
    }
  }

  lemma {:induction false} TwiceNInner(n: nat, r: Reg)
    ensures TwiceN(n + 1, r) == TwiceN(n, Twice(r))
  {
    if n > 0 { TwiceNInner(n - 1, r); }
  }

  lemma SplitLowBit(v: bv32)
    ensures XorWord(if v & 1 == 1 then 1 else 0, TwiceWord(HalfWord(v))) == v
  {}

  lemma HalfAnd(v: bv32, m: bv32)
    ensures HalfWord(v & m) == HalfWord(v) & HalfWord(m)
  {}

  lemma HalfWithin(v: bv32, m: bv32)
    requires Within(v, m)
    ensures Within(HalfWord(v), HalfWord(m))
  {
    HalfAnd(v, m);
  }

  lemma NoBitsLeft(v: bv32)
    requires Within(v, Ones(32))
    ensures v == 0
  {
    OnesAtEnd();
  }

  lemma {:induction false} TimesZero(m: seq<bv32>)
    ensures Times(m, 0) == Nil
  {
    if m != [] {
      assert HalfWord(0) == 0;
      TimesZero(m[1..]);
      XorNil(Nil);
    }
  }

  /** The columns from i on act on the bits of v moved up by i. */
  lemma {:induction false} TimesTail(m: seq<bv32>, n: nat, i: nat, v: bv32)
    requires Appends(m, n) && i <= 32 && Within(v, Ones(i))
    ensures Times(m[i..], v) == Zeros(n, TwiceN(i, Reg(v)))
    decreases 32 - i
  {
    if i == 32 {
      NoBitsLeft(v);
      TwiceNOfNil(32);
      ZerosOfNil(n);
    } else {
      var lo, half := Bit(v & 1 == 1), Reg(HalfWord(v));
      assert m[i..][0] == m[i] && m[i..][1..] == m[i + 1..];
      HalfWithin(v, Ones(i));
      TimesTail(m, n, i + 1, HalfWord(v));
      TwiceNInner(i, half);
      SplitLowBit(v);
      assert Reg(v) == Xor(lo, Twice(half));
      TwiceNLinear(i, lo, Twice(half));
      ZerosLinear(n, TwiceN(i, lo), TwiceN(i, Twice(half)));
      TwiceNOfNil(i);
      ZerosOfNil(n);
    }
  }

  /** A matrix whose columns are right is the operator "append n zero bits". */
  lemma TimesAppends(m: seq<bv32>, n: nat, v: bv32)
    requires Appends(m, n)
    ensures Times(m, v) == Zeros(n, Reg(v))
  {
    assert m[0..] == m;
    AllWithin(v);
    TimesTail(m, n, 0, v);
  }

  lemma AllWithin(v: bv32)
    ensures Within(v, Ones(0))
  {}

  /** gf2_matrix_times. */
  method MatrixTimes(mat: array<bv32>, vec: bv32) returns (sum: bv32)
    requires mat.Length == 32
    ensures Reg(sum) == Times(mat[..], vec)
  {
    sum := 0;
    var v, i := vec, 0;
    AllWithin(v);
    assert mat[0..] == mat[..];
    XorNil(Times(mat[..], vec));
    while v != 0
      invariant 0 <= i <= 32 && Within(v, Ones(i))
      invariant Xor(Reg(sum), Times(mat[i..], v)) == Times(mat[..], vec)
      decreases 32 - i
    {
      if i == 32 { NoBitsLeft(v); }
      ghost var column := if v & 1 == 1 then Reg(mat[i]) else Nil;
      assert mat[i..][1..] == mat[i + 1..];
      XorAssoc(Reg(sum), column, Times(mat[i + 1..], HalfWord(v)));
      XorNil(Reg(sum));
      HalfWithin(v, Ones(i));
      if v & 1 == 1 { sum := XorWord(sum, mat[i]); }
      v := HalfWord(v);
      i := i + 1;
    }
    TimesZero(mat[i..]);
    XorNil(Reg(sum));
  }

  ghost predicate IsSquare(square: seq<bv32>, m: seq<bv32>) {
    |square| == |m| && forall i :: 0 <= i < |m| ==> Reg(square[i]) == Times(m, m[i])
  }

  /** gf2_matrix_square. */
  method MatrixSquare(square: array<bv32>, mat: array<bv32>)
    requires square.Length == mat.Length == 32 && square != mat
    modifies square
    ensures IsSquare(square[..], mat[..])
  {
    var n := 0;
    while n < 32
      invariant 0 <= n <= 32 && mat[..] == old(mat[..])
      invariant forall i :: 0 <= i < n ==> Reg(square[i]) == Times(mat[..], mat[i])
    {
      var c := MatrixTimes(mat, mat[n]);
      square[n] := c;
      n := n + 1;
    }
  }

  lemma SquareAppends(square: seq<bv32>, m: seq<bv32>, n: nat)
    requires Appends(m, n) && IsSquare(square, m)
    ensures Appends(square, 2 * n)
  {
    forall i | 0 <= i < 32
      ensures Reg(square[i]) == Zeros(2 * n, TwiceN(i, Reg(1)))
    {
      TimesAppends(m, n, m[i]);
      ZerosCompose(n, n, TwiceN(i, Reg(1)));
    }
  }

  /** The operator for one zero bit. */
  method MatrixOneBit(odd: array<bv32>)
    requires odd.Length == 32
    modifies odd
    ensures Appends(odd[..], 1)
  {
    odd[0] := 0xedb8_8320;
    assert Shift(Reg(1)) == Reg(POLY);
    var row: bv32 := 1;
    var n := 1;
    OneClear();
    while n < 32
      invariant 1 <= n <= 32
      invariant Reg(row) == TwiceN(n - 1, Reg(1))
      invariant forall i :: 0 <= i < n ==> Reg(odd[i]) == Zeros(1, TwiceN(i, Reg(1)))
    {
      OneBitUp(n - 1);
      odd[n] := row;
      row := TwiceWord(row);
      n := n + 1;
    }
  }

  lemma OneClear()
    ensures Clear(Reg(1), 31)
  {
    OnesAtEnd();
  }

  lemma OneBitUp(i: nat)
    requires i < 31
    ensures Zeros(1, TwiceN(i + 1, Reg(1))) == TwiceN(i, Reg(1))
  {
    OneClear();
    TwiceNClear(i, 31 - i, Reg(1));
    ClearOne(TwiceN(i, Reg(1)), 31 - i);
    ShiftTwice(TwiceN(i, Reg(1)));
  }

  /** crc32_combine_: a non-positive length returns the first CRC; otherwise len2 zero
      bytes are applied to it by repeated squaring and the second CRC is added. */
  method Combine(crc1: bv32, crc2: bv32, len2: int) returns (r: bv32)
    ensures Reg(r) == if len2 <= 0 then Reg(crc1) else Xor(Zeros(8 * len2, Reg(crc1)), Reg(crc2))
  {
    if len2 <= 0 { return crc1; }
    var even, odd := new bv32[32], new bv32[32];
    MatrixOneBit(odd);
    ghost var m := odd[..];
    MatrixSquare(even, odd);
    SquareAppends(even[..], m, 1);
    m := even[..];
    MatrixSquare(odd, even);
    SquareAppends(odd[..], m, 2);

    var c, len := crc1, len2;
    ghost var z: nat := 4;
    while true
      invariant len > 0 && Appends(odd[..], z)
      invariant Zeros(Product(2 * z, len), Reg(c)) == Zeros(8 * len2, Reg(crc1))
      decreases len
    {
      c := ApplyNext(even, odd, z, c, len);
      len := len / 2;
      if len == 0 { break; }
      c := ApplyNext(odd, even, 2 * z, c, len);
      len := len / 2;
      z := 4 * z;
      if len == 0 { break; }
    }
    r := XorWord(c, crc2);
  }

  ghost function Product(a: nat, b: nat): nat { a * b }

  lemma ProductHalves(z: nat, len: nat)
    ensures Product(z, len) == (if len % 2 == 1 then z else 0) + Product(2 * z, len / 2)
  {
    assert len == len % 2 + 2 * (len / 2);
    assert z * len == z * (len % 2) + z * (2 * (len / 2));
  }

  /** Square the operator and apply it when the lowest bit of len is set. */
  method ApplyNext(square: array<bv32>, mat: array<bv32>, ghost z: nat, crc: bv32, len: nat) returns (c: bv32)
    requires square.Length == mat.Length == 32 && square != mat && Appends(mat[..], z)
    modifies square
    ensures Appends(square[..], 2 * z)
    ensures Zeros(Product(4 * z, len / 2), Reg(c)) == Zeros(Product(2 * z, len), Reg(crc))
  {
    MatrixSquare(square, mat);
    SquareAppends(square[..], mat[..], z);
    c := crc;
    ProductHalves(2 * z, len);
    if len % 2 == 1 {
      c := MatrixTimes(square, crc);
      TimesAppends(square[..], 2 * z, crc);
      ZerosCompose(2 * z, Product(4 * z, len / 2), Reg(crc));
    }
  }

  /** What combining is for: the CRC of a concatenation from the CRCs of its parts. */
  method CombineParts(a: seq<bv8>, b: seq<bv8>, crcA: bv32, crcB: bv32) returns (r: bv32)
    requires Reg(crcA) == Crc(Nil, a) && Reg(crcB) == Crc(Nil, b)
    ensures Reg(r) == Crc(Nil, a + b)
  {
    r := Combine(crcA, crcB, |b|);
    CrcOfConcat(a, b);
    if b == [] {
      assert a + b == a;
    }
  }
}
