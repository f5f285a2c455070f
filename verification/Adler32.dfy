/** Adler-32 of adler32.c: deferred modulo, division-free reductions and combination.
    Every accumulator is a `uint32`, so each `+` below is also a proof that the C code,
    whose `unsigned long` has 32 bits on the target, does not wrap around. */
module Adler32 {
  import opened Integers

  const BASE: nat := 65521
  const NMAX: nat := 5552

  // ---- the definition, section 8.2 of RFC 1950 ----

  /** The two running sums. */
  datatype Sums = Sums(s1: nat, s2: nat)

  function Feed(a: Sums, s: seq<uint8>): Sums
    decreases |s|
  {
    if s == [] then a
    else
      var s1 := (a.s1 + s[0] as nat) % BASE;
      Feed(Sums(s1, (a.s2 + s1) % BASE), s[1..])
  }

  function Split(adler: uint32): Sums {
    Sums(adler as nat % 0x1_0000, adler as nat / 0x1_0000)
  }

  lemma SplitHalves(lo: uint32, hi: uint32)
    requires lo < 0x1_0000 && hi < 0x1_0000
    ensures lo as int + hi as int * 0x1_0000 < 0x1_0000_0000
    ensures Split(lo + hi * 0x1_0000) == Sums(lo as nat, hi as nat)
  {}

  predicate Reduced(a: Sums) { a.s1 < BASE && a.s2 < BASE }

  /** The checksum of a byte string starts from 1. */
  const Start := Sums(1, 0)

  function Adler(s: seq<uint8>): Sums { Feed(Start, s) }

  // ---- undeferred sums ----

  function Sum(s: seq<uint8>): nat {
    if s == [] then 0 else s[0] as nat + Sum(s[1..])
  }

  /** Sum of the bytes weighted by their distance from the end. */
  function Weighted(s: seq<uint8>): nat {
    if s == [] then 0 else |s| * s[0] as nat + Weighted(s[1..])
  }

  lemma {:induction false} SumConcat(s: seq<uint8>, t: seq<uint8>)
    ensures Sum(s + t) == Sum(s) + Sum(t)
    ensures Weighted(s + t) == Weighted(s) + |t| * Sum(s) + Weighted(t)
  {
    if s == [] {
      assert s + t == t;
    } else {
      assert (s + t)[1..] == s[1..] + t;
      SumConcat(s[1..], t);
      Distribute(|s|, |t|, s[0] as nat);
      Distribute(s[0] as nat, Sum(s[1..]), |t|);
    }
  }

  lemma Distribute(x: nat, y: nat, k: nat)
    ensures (x + y) * k == x * k + y * k && k * (x + y) == k * x + k * y
  {}

  lemma SumAppend(s: seq<uint8>, b: uint8)
    ensures Sum(s + [b]) == Sum(s) + b as nat
    ensures Weighted(s + [b]) == Weighted(s) + Sum(s) + b as nat
  {
    SumConcat(s, [b]);
  }

  lemma {:induction false} SumBound(s: seq<uint8>)
    ensures Sum(s) <= 255 * |s|
    ensures 2 * Weighted(s) <= 255 * (|s| * (|s| + 1))
  {
    if s != [] {
      SumBound(s[1..]);
      var n := |s|;
      Distribute(n - 1, 2, n);
      Monotone(n, s[0] as nat, 255);
    }
  }

  lemma Monotone(k: nat, x: nat, y: nat)
    requires x <= y
    ensures k * x <= k * y
  {}

  /** Both sums taken over the integers and reduced once at the end. */
  function Closed(a: Sums, s: seq<uint8>): (r: Sums)
    ensures Reduced(r)
  {
    Sums((a.s1 + Sum(s)) % BASE, (a.s2 + |s| * a.s1 + Weighted(s)) % BASE)
  }

  /** Deferring the modulo to the end does not change the definition. */
  lemma {:induction false} DeferredModulo(a: Sums, s: seq<uint8>)
    requires Reduced(a)
    ensures Feed(a, s) == Closed(a, s)
    decreases |s|
  {
    if s != [] {
      var b, t := s[0] as nat, s[1..];
      var x := a.s1 + b;
      var s1 := x % BASE;
      var s2 := (a.s2 + s1) % BASE;
      DeferredModulo(Sums(s1, s2), t);
      ModAdd(x, Sum(t));
      FeedClosedSecond(|t|, x, a.s2, Weighted(t));
      Distribute(a.s1, b, |s|);
    }
  }

  /** Deferring the modulo to the end of each block does not change the result. */
  lemma BlockByBlock(a: Sums, s: seq<uint8>, t: seq<uint8>)
    ensures Closed(Closed(a, s), t) == Closed(a, s + t)
  {
    hide Sum, Weighted;
    SumConcat(s, t);
    ModAdd(a.s1 + Sum(s), Sum(t));
    BlockByBlockSecond(|t|, a.s1, Sum(s), a.s2 + |s| * a.s1 + Weighted(s), Weighted(t));
    Distribute(|s|, |t|, a.s1);
  }

  lemma BlockByBlockSecond(n: nat, s1: nat, sum: nat, y: nat, w: nat)
    ensures (y % BASE + n * ((s1 + sum) % BASE) + w) % BASE == (y + n * s1 + n * sum + w) % BASE
  {
    var x := s1 + sum;
    ModAdd(y, n * (x % BASE) + w);
    ModMul(n, x);
    ModAdd(n * (x % BASE), y + w);
    ModAdd(n * x, y + w);
    Distribute(s1, sum, n);
  }

  lemma FeedClosedSecond(n: nat, x: nat, s2: nat, w: nat)
    ensures ((s2 + x % BASE) % BASE + n * (x % BASE) + w) % BASE == (s2 + (n + 1) * x + w) % BASE
  {
    var r := x % BASE;
    ModAdd(s2 + r, n * r + w);
    Distribute(n, 1, r);
    ModMul(n + 1, x);
    ModAdd((n + 1) * r, s2 + w);
    ModAdd((n + 1) * x, s2 + w);
  }

  lemma ModAdd(x: nat, y: nat)
    ensures (x % BASE + y) % BASE == (x + y) % BASE
  {}

  lemma ModMul(k: nat, x: nat)
    ensures (k * (x % BASE)) % BASE == (k * x) % BASE
  {
    var q, r := x / BASE, x % BASE;
    assert k * x == BASE * (k * q) + k * r;
    ModMultiple(k * q, k * r);
  }

  lemma ModMultiple(q: nat, r: nat)
    ensures (BASE * q + r) % BASE == r % BASE
  {}

  // ---- reductions ----

  /** CHOP: 65536 is 15 modulo BASE. */
  method Chop(a: uint32) returns (r: uint32)
    ensures r as nat == a as nat % 0x1_0000 + 15 * (a as nat / 0x1_0000)
    ensures r as nat % BASE == a as nat % BASE
  {
    var tmp := a / 0x1_0000;
    r := a % 0x1_0000;
    r := r + (tmp * 16 - tmp);
    FoldHigh(a as nat);
  }

  lemma FoldHigh(a: nat)
    ensures (a % 0x1_0000 + 15 * (a / 0x1_0000)) % BASE == a % BASE
  {
    var q, m := a / 0x1_0000, a % 0x1_0000;
    assert a == BASE * q + (m + 15 * q);
    ModMultiple(q, m + 15 * q);
  }

  lemma OneSubtraction(a: nat)
    ensures a < 2 * BASE ==> (if a >= BASE then a - BASE else a) == a % BASE
    ensures a >= 2 * BASE ==> a - BASE != a % BASE
  {}

  /** MOD28: without division it is the remainder exactly when one subtraction after
      the fold is enough, which every 28-bit value satisfies. */
  method Mod28(noDivide: bool, a: uint32) returns (r: uint32)
    ensures r as nat == a as nat % BASE <==>
            !noDivide || a as nat % 0x1_0000 + 15 * (a as nat / 0x1_0000) < 2 * BASE
    ensures a < 0x1000_0000 ==> r as nat == a as nat % BASE
  {
    if noDivide {
      r := Chop(a);
      OneSubtraction(r as nat);
      if r >= 65521 { r := r - 65521; }
    } else {
      r := a % 65521;
    }
  }

  /** MOD: the remainder of every 32-bit value. */
  method Mod(noDivide: bool, a: uint32) returns (r: uint32)
    ensures r as nat == a as nat % BASE
  {
    if noDivide {
      r := Chop(a);
      r := Mod28(noDivide, r);
    } else {
      r := a % 65521;
    }
  }

  /** MOD63: the remainder of every non-negative 63-bit value. */
  method Mod63(noDivide: bool, len2: int64) returns (a: int64)
    requires len2 >= 0
    ensures a as int == len2 as int % BASE
  {
    a := len2;
    if noDivide {
      var tmp := a / 0x1_0000_0000;
      a := a % 0x1_0000_0000;
      a := a + (tmp * 256 - tmp * 32 + tmp);
      FoldHigh32(len2 as nat);
      FoldHigh(a as nat);
      tmp := a / 0x1_0000;
      a := a % 0x1_0000;
      a := a + (tmp * 16 - tmp);
      FoldHigh(a as nat);
      tmp := a / 0x1_0000;
      a := a % 0x1_0000;
      a := a + (tmp * 16 - tmp);
      OneSubtraction(a as nat);
      if a >= 65521 { a := a - 65521; }
    } else {
      a := a % 65521;
    }
  }

  lemma FoldHigh32(a: nat)
    ensures (a % 0x1_0000_0000 + 225 * (a / 0x1_0000_0000)) % BASE == a % BASE
  {
    var q, m := a / 0x1_0000_0000, a % 0x1_0000_0000;
    assert 0x1_0000_0000 == BASE * 65551 + 225;
    assert a == BASE * (65551 * q) + (m + 225 * q);
    ModMultiple(65551 * q, m + 225 * q);
  }

  // ---- blocks of bytes ----

  /** The accumulators after the bytes s, counted from the start of the block. */
  ghost predicate Accumulated(adler: uint32, sum2: uint32, a: Sums, s: seq<uint8>) {
    adler as nat == a.s1 + Sum(s) && sum2 as nat == a.s2 + |s| * a.s1 + Weighted(s)
  }

  /** NMAX bytes fit: even from 16-bit start values no accumulator reaches 2^32. */
  lemma NmaxBound(a: Sums, s: seq<uint8>)
    requires a.s1 < 0x1_0000 && a.s2 < 0x1_0000 && |s| <= NMAX
    ensures a.s1 + Sum(s) < 0x1_0000_0000
    ensures a.s2 + |s| * a.s1 + Weighted(s) < 0x1_0000_0000
  {
    SumBound(s);
    Monotone(|s|, a.s1, 0xffff);
    Monotone(|s| + 1, |s|, NMAX);
    Monotone(NMAX, |s| + 1, NMAX + 1);
  }

  /** The block size is the largest one with that property for reduced start values. */
  lemma NmaxIsLargest(n: nat)
    ensures 255 * n * (n + 1) / 2 + (n + 1) * (BASE - 1) <= 0xffff_ffff <==> n <= NMAX
  {
    if n <= NMAX {
      Monotone(n + 1, n, NMAX);
      Monotone(NMAX, n + 1, NMAX + 1);
      assert n * (n + 1) <= NMAX * (NMAX + 1);
      assert 255 * n * (n + 1) == 255 * (n * (n + 1));
    } else {
      Monotone(n + 1, NMAX + 1, n);
      Monotone(NMAX + 1, NMAX + 2, n + 1);
      assert n * (n + 1) >= (NMAX + 1) * (NMAX + 2);
      assert 255 * n * (n + 1) == 255 * (n * (n + 1));
    }
  }

  /** DO1 on byte i of the block that began at `start`. */
  method Do1(adler: uint32, sum2: uint32, buf: array<uint8>, i: nat, ghost start: nat, ghost a: Sums)
    returns (adler': uint32, sum2': uint32)
    requires start <= i < buf.Length && i - start < NMAX && a.s1 < 0x1_0000 && a.s2 < 0x1_0000
    requires Accumulated(adler, sum2, a, buf[start..i])
    ensures Accumulated(adler', sum2', a, buf[start..i + 1])
  {
    assert buf[start..i + 1] == buf[start..i] + [buf[i]];
    SumAppend(buf[start..i], buf[i]);
    NmaxBound(a, buf[start..i + 1]);
    Distribute(i - start, 1, a.s1);
    adler' := adler + buf[i] as uint32;
    sum2' := sum2 + adler';
  }

  method Do2(adler: uint32, sum2: uint32, buf: array<uint8>, i: nat, ghost start: nat, ghost a: Sums)
    returns (adler': uint32, sum2': uint32)
    requires start <= i && i + 2 <= buf.Length && i + 2 - start <= NMAX && a.s1 < 0x1_0000 && a.s2 < 0x1_0000
    requires Accumulated(adler, sum2, a, buf[start..i])
    ensures Accumulated(adler', sum2', a, buf[start..i + 2])
  {
    adler', sum2' := Do1(adler, sum2, buf, i, start, a);
    adler', sum2' := Do1(adler', sum2', buf, i + 1, start, a);
  }

  method Do4(adler: uint32, sum2: uint32, buf: array<uint8>, i: nat, ghost start: nat, ghost a: Sums)
    returns (adler': uint32, sum2': uint32)
    requires start <= i && i + 4 <= buf.Length && i + 4 - start <= NMAX && a.s1 < 0x1_0000 && a.s2 < 0x1_0000
    requires Accumulated(adler, sum2, a, buf[start..i])
    ensures Accumulated(adler', sum2', a, buf[start..i + 4])
  {
    adler', sum2' := Do2(adler, sum2, buf, i, start, a);
    adler', sum2' := Do2(adler', sum2', buf, i + 2, start, a);
  }

  method Do8(adler: uint32, sum2: uint32, buf: array<uint8>, i: nat, ghost start: nat, ghost a: Sums)
    returns (adler': uint32, sum2': uint32)
    requires start <= i && i + 8 <= buf.Length && i + 8 - start <= NMAX && a.s1 < 0x1_0000 && a.s2 < 0x1_0000
    requires Accumulated(adler, sum2, a, buf[start..i])
    ensures Accumulated(adler', sum2', a, buf[start..i + 8])
  {
    adler', sum2' := Do4(adler, sum2, buf, i, start, a);
    adler', sum2' := Do4(adler', sum2', buf, i + 4, start, a);
  }

  method Do16(adler: uint32, sum2: uint32, buf: array<uint8>, i: nat, ghost start: nat, ghost a: Sums)
    returns (adler': uint32, sum2': uint32)
    requires start <= i && i + 16 <= buf.Length && i + 16 - start <= NMAX && a.s1 < 0x1_0000 && a.s2 < 0x1_0000
    requires Accumulated(adler, sum2, a, buf[start..i])
    ensures Accumulated(adler', sum2', a, buf[start..i + 16])
  {
    adler', sum2' := Do8(adler, sum2, buf, i, start, a);
    adler', sum2' := Do8(adler', sum2', buf, i + 8, start, a);
  }

  /** A block of n bytes: 16 at a time, then one at a time. */
  ghost predicate InBlock(adler: uint32, sum2: uint32, buf: array<uint8>, start: nat, i: nat, a: Sums)
    reads buf
  {
    && start <= i <= buf.Length && i - start <= NMAX && a.s1 < 0x1_0000 && a.s2 < 0x1_0000
    && Accumulated(adler, sum2, a, buf[start..i])
  }

  lemma EndOfBlock(a: Sums, adler: uint32, sum2: uint32, buf: array<uint8>, start: nat, i: nat, whole: Sums)
    requires InBlock(adler, sum2, buf, start, i, a) && ((start == 0 && a == whole) || a == Closed(whole, buf[..start]))
    ensures Sums(adler as nat % BASE, sum2 as nat % BASE) == Closed(whole, buf[..i])
  {
    assert buf[..i] == buf[..start] + buf[start..i];
    if a == whole && start == 0 {
      assert buf[..i] == buf[start..i];
    } else {
      BlockByBlock(whole, buf[..start], buf[start..i]);
    }
  }

  lemma SplitIs(adler: uint32)
    ensures Split(adler) == Sums((adler % 0x1_0000) as nat, (adler / 0x1_0000) as nat)
    ensures adler % 0x1_0000 < 0x1_0000 && adler / 0x1_0000 < 0x1_0000
  {}

  lemma ClosedOne(a: Sums, b: uint8)
    ensures Closed(a, [b]) == Sums((a.s1 + b as nat) % BASE, (a.s2 + a.s1 + b as nat) % BASE)
  {
    SumAppend([], b);
    assert [] + [b] == [b];
  }

  /** adler32_z. A null buffer asks for the start value. Otherwise both sums of the result
      are the reduced sums over all bytes, for every 32-bit `adler`, with one exception:
      the single-byte path subtracts BASE from the second sum at most once. */
  method Adler32Z(noDivide: bool, adler0: uint32, buf: array?<uint8>, size: nat) returns (r: uint32)
    requires buf != null ==> size <= buf.Length
    requires size == 1 ==> buf != null
    ensures buf == null ==> r == 1
    ensures size == 1 ==> Split(r) == ByteStep(Split(adler0), buf[0])
    ensures buf != null ==>
      (Split(r) == Closed(Split(adler0), buf[..size]) <==>
       !(size == 1 && Split(adler0).s2 + (Split(adler0).s1 + buf[0] as nat) % BASE >= 2 * BASE))
  {
    hide Sum, Weighted, Closed, Split;
    var sum2 := adler0 / 0x1_0000;
    var adler := adler0 % 0x1_0000;
    ghost var whole := Split(adler0);
    SplitIs(adler0);
    if size == 1 {
      r := OneByte(adler, sum2, buf[0]);
      assert buf[..1] == [buf[0]];
      ClosedOne(whole, buf[0]);
      return;
    }
    if buf == null { return 1; }
    if size < 16 {
      r := FewBytes(noDivide, adler, sum2, buf, size);
      return;
    }
    adler, sum2 := Blocks(noDivide, adler, sum2, buf, size, whole);
    SplitHalves(adler, sum2);
    r := adler + sum2 * 0x1_0000;
  }

  /** Whole blocks of NMAX bytes, then the rest. */
  method Blocks(noDivide: bool, adler0: uint32, sum20: uint32, buf: array<uint8>, size: nat, ghost whole: Sums)
    returns (adler: uint32, sum2: uint32)
    requires 0 < size <= buf.Length && Split16(adler0, sum20, whole)
    ensures Split16(adler, sum2, Closed(whole, buf[..size]))
  {
    adler, sum2 := adler0, sum20;
    var i, len := 0, size;
    ghost var a := whole;
    while len >= 5552
      invariant i + len == size
      invariant Split16(adler, sum2, a)
      invariant (i == 0 && a == whole) || (i > 0 && a == Closed(whole, buf[..i]))
    {
      len := len - 5552;
      adler, sum2 := NmaxBlock(noDivide, adler, sum2, buf, i, a, whole);
      i := i + 5552;
      a := Closed(whole, buf[..i]);
    }
    if len > 0 {
      adler, sum2 := LastBlock(noDivide, adler, sum2, buf, i, len, a, whole);
    }
  }

  ghost predicate Split16(adler: uint32, sum2: uint32, a: Sums) {
    adler as nat == a.s1 < 0x1_0000 && sum2 as nat == a.s2 < 0x1_0000
  }

  /** What the single-byte path computes. */
  function ByteStep(a: Sums, b: uint8): Sums {
    var s1 := if a.s1 + b as nat >= BASE then a.s1 + b as nat - BASE else a.s1 + b as nat;
    Sums(s1, if a.s2 + s1 >= BASE then a.s2 + s1 - BASE else a.s2 + s1)
  }

  /** From a start value whose second half is not reduced: the second sum is 13, but 65534 is left. */
  lemma OneByteUnreduced()
    ensures Closed(Sums(65520, 65535), [0]) == Sums(65520, 13)
    ensures ByteStep(Sums(65520, 65535), 0) == Sums(65520, 65534)
  {
    ClosedOne(Sums(65520, 65535), 0);
  }

  /** The single-byte path. */
  method OneByte(adler0: uint32, sum20: uint32, b: uint8) returns (r: uint32)
    requires adler0 < 0x1_0000 && sum20 < 0x1_0000
    ensures Split(r) == ByteStep(Sums(adler0 as nat, sum20 as nat), b)
    ensures Split(r) == Sums((adler0 as nat + b as nat) % BASE, (sum20 as nat + adler0 as nat + b as nat) % BASE) <==>
            sum20 as nat + (adler0 as nat + b as nat) % BASE < 2 * BASE
  {
    hide Split;
    var adler, sum2 := adler0 + b as uint32, sum20;
    OneSubtraction(adler as nat);
    ModAdd(adler as nat, sum20 as nat);
    if adler >= 65521 { adler := adler - 65521; }
    sum2 := sum2 + adler;
    OneSubtraction(sum2 as nat);
    if sum2 >= 65521 { sum2 := sum2 - 65521; }
    SplitHalves(adler, sum2);
    r := adler + sum2 * 0x1_0000;
  }

  lemma FewBound(a: Sums, s: seq<uint8>)
    requires a.s1 < 0x1_0000 && a.s2 < 0x1_0000 && |s| < 16
    ensures a.s1 + Sum(s) < 2 * BASE
    ensures a.s2 + |s| * a.s1 + Weighted(s) < 0x1000_0000
  {
    SumBound(s);
    Monotone(|s|, a.s1, 0xffff);
    Monotone(|s|, |s| + 1, 16);
  }

  /** The path for fewer than 16 bytes. */
  method FewBytes(noDivide: bool, adler0: uint32, sum20: uint32, buf: array<uint8>, size: nat) returns (r: uint32)
    requires size < 16 && size <= buf.Length && adler0 < 0x1_0000 && sum20 < 0x1_0000
    ensures Split(r) == Closed(Sums(adler0 as nat, sum20 as nat), buf[..size])
  {
    var adler, sum2, i, len := adler0, sum20, 0, size;
    ghost var a := Sums(adler as nat, sum2 as nat);
    while len > 0
      invariant i + len == size
      invariant InBlock(adler, sum2, buf, 0, i, a)
    {
      len := len - 1;
      adler, sum2 := Do1(adler, sum2, buf, i, 0, a);
      i := i + 1;
    }
    EndOfBlock(a, adler, sum2, buf, 0, i, a);
    FewBound(a, buf[0..i]);
    OneSubtraction(adler as nat);
    if adler >= 65521 { adler := adler - 65521; }
    sum2 := Mod28(noDivide, sum2);
    SplitHalves(adler, sum2);
    r := adler + sum2 * 0x1_0000;
  }

  /** One full block and its two reductions. */
  method NmaxBlock(noDivide: bool, adler0: uint32, sum20: uint32, buf: array<uint8>, start: nat, ghost a: Sums, ghost whole: Sums)
    returns (adler: uint32, sum2: uint32)
    requires start + NMAX <= buf.Length && Split16(adler0, sum20, a)
    requires (start == 0 && a == whole) || a == Closed(whole, buf[..start])
    ensures Split16(adler, sum2, Closed(whole, buf[..start + NMAX]))
  {
    adler, sum2 := adler0, sum20;
    var i, n := start, 5552 / 16;
    while n > 0
      invariant i + 16 * n == start + NMAX
      invariant InBlock(adler, sum2, buf, start, i, a)
    {
      adler, sum2 := Do16(adler, sum2, buf, i, start, a);
      i := i + 16;
      n := n - 1;
    }
    EndOfBlock(a, adler, sum2, buf, start, i, whole);
    adler := Mod(noDivide, adler);
    sum2 := Mod(noDivide, sum2);
  }

  /** The remaining bytes, fewer than a block. */
  method LastBlock(noDivide: bool, adler0: uint32, sum20: uint32, buf: array<uint8>, start: nat, size: nat,
                   ghost a: Sums, ghost whole: Sums)
    returns (adler: uint32, sum2: uint32)
    requires size < NMAX && start + size <= buf.Length && Split16(adler0, sum20, a)
    requires (start == 0 && a == whole) || a == Closed(whole, buf[..start])
    ensures Split16(adler, sum2, Closed(whole, buf[..start + size]))
  {
    adler, sum2 := adler0, sum20;
    var i, len := start, size;
    while len >= 16
      invariant i + len == start + size
      invariant InBlock(adler, sum2, buf, start, i, a)
    {
      len := len - 16;
      adler, sum2 := Do16(adler, sum2, buf, i, start, a);
      i := i + 16;
    }
    while len > 0
      invariant i + len == start + size
      invariant InBlock(adler, sum2, buf, start, i, a)
    {
      len := len - 1;
      adler, sum2 := Do1(adler, sum2, buf, i, start, a);
      i := i + 1;
    }
    EndOfBlock(a, adler, sum2, buf, start, i, whole);
    adler := Mod(noDivide, adler);
    sum2 := Mod(noDivide, sum2);
  }

  // ---- combination ----

  /** The sums of a concatenation from the sums of its parts and the length of the second. */
  function Combined(a: Sums, b: Sums, n: nat): (r: Sums)
    ensures Reduced(r)
  {
    var rem := n % BASE;
    Sums((a.s1 + b.s1 + BASE - 1) % BASE, (rem * a.s1 % BASE + a.s2 + b.s2 + BASE - rem) % BASE)
  }

  lemma CombinedFirst(x: nat, t: nat)
    ensures (x + (1 + t) % BASE + BASE - 1) % BASE == (x + t) % BASE
  {
    ModAdd(1 + t, x + BASE - 1);
    ModMultiple(1, x + t);
  }

  lemma CombinedSecond(n: nat, x: nat, y: nat, w: nat)
    ensures ((n % BASE) * x % BASE + y + (n + w) % BASE + BASE - n % BASE) % BASE == (y + n * x + w) % BASE
  {
    var rem := n % BASE;
    ModAdd(rem * x, y + (n + w) % BASE + BASE - rem);
    ModAdd(n + w, rem * x + y + BASE - rem);
    ModMul(x, n);
    ModAdd(x * rem, y + w + n + BASE - rem);
    ModAdd(x * n, y + w + n + BASE - rem);
    assert n + BASE - rem == BASE * (n / BASE + 1);
    ModMultiple(n / BASE + 1, x * n + y + w);
  }

  /** The checksum of a concatenation in terms of the checksums of its parts. */
  lemma AdlerOfConcat(s: seq<uint8>, t: seq<uint8>)
    ensures Adler(s + t) == Combined(Adler(s), Adler(t), |t|)
  {
    DeferredModulo(Start, s);
    DeferredModulo(Start, t);
    DeferredModulo(Start, s + t);
    BlockByBlock(Start, s, t);
    CombinedFirst(Adler(s).s1, Sum(t));
    CombinedSecond(|t|, Adler(s).s1, Adler(s).s2, Weighted(t));
  }

  /** sum1 | (sum2 << 16) on 32 bits. */
  function Halves(sum1: uint32, sum2: uint32): (r: uint32)
    requires sum1 < 0x2_0000
  {
    var top := sum2 % 0x1_0000;
    sum1 % 0x1_0000 + (if sum1 >= 0x1_0000 && top % 2 == 0 then top + 1 else top) * 0x1_0000
  }

  /** Neither sum exceeds what the subtractions can reduce. */
  predicate CombinesWell(a: Sums, b: Sums, n: nat) {
    && a.s1 + b.s1 + BASE - 1 < 3 * BASE
    && n % BASE * a.s1 % BASE + a.s2 + b.s2 + BASE - n % BASE < 4 * BASE
  }

  /** Which is so for all checksums of byte strings. */
  lemma ReducedCombines(a: Sums, b: Sums, n: nat)
    requires Reduced(a) && Reduced(b)
    ensures CombinesWell(a, b, n)
  {}

  /** With halves that are not reduced the first or the second sum can come out wrong. */
  lemma UnreducedFails()
    ensures !CombinesWell(Sums(65535, 0), Sums(65535, 0), 0)
    ensures !CombinesWell(Sums(65520, 65535), Sums(1, 65535), 1)
  {}

  lemma FirstHalf(x: nat, sum1: uint32)
    requires x < 3 * BASE + 28 && sum1 as nat == (if x < BASE then x else if x < 2 * BASE then x - BASE else x - 2 * BASE)
    ensures sum1 < 0x2_0000
    ensures x < 3 * BASE ==> sum1 < 0x1_0000
    ensures sum1 as nat % 0x1_0000 == x % BASE <==> x < 3 * BASE
  {}

  lemma SecondHalf(y: nat, sum2: uint32)
    requires y < 4 * BASE + 28
    requires sum2 as nat == (if y < BASE then y else if y < 2 * BASE then y - BASE else if y < 3 * BASE then y - 2 * BASE else y - 3 * BASE)
    ensures sum2 as nat % 0x1_0000 == y % BASE <==> y < 4 * BASE
  {}

  lemma SplitJoined(lo: nat, hi: nat, r: uint32)
    requires lo < 0x1_0000 && hi < 0x1_0000 && r as nat == lo + hi * 0x1_0000
    ensures Split(r) == Sums(lo, hi)
  {}

  lemma HalvesSplit(sum1: uint32, sum2: uint32)
    requires sum1 < 0x2_0000
    ensures Split(Halves(sum1, sum2)).s1 == sum1 as nat % 0x1_0000
    ensures sum1 < 0x1_0000 ==> Split(Halves(sum1, sum2)).s2 == sum2 as nat % 0x1_0000
  {
    hide Split;
    var top := sum2 % 0x1_0000;
    var hi := if sum1 >= 0x1_0000 && top % 2 == 0 then top + 1 else top;
    SplitJoined((sum1 % 0x1_0000) as nat, hi as nat, Halves(sum1, sum2));
  }

  /** Where one more subtraction was needed, that half comes out wrong. */
  lemma HalvesExact(x: nat, y: nat, sum1: uint32, sum2: uint32)
    requires x < 3 * BASE + 28 && sum1 as nat == (if x < BASE then x else if x < 2 * BASE then x - BASE else x - 2 * BASE)
    requires y < 4 * BASE + 28 && sum2 as nat == (if y < BASE then y else if y < 2 * BASE then y - BASE else if y < 3 * BASE then y - 2 * BASE else y - 3 * BASE)
    ensures sum1 < 0x2_0000
    ensures Split(Halves(sum1, sum2)) == Sums(x % BASE, y % BASE) <==> x < 3 * BASE && y < 4 * BASE
  {
    hide Split, Halves;
    FirstHalf(x, sum1);
    SecondHalf(y, sum2);
    HalvesSplit(sum1, sum2);
  }

  /** adler32_combine_: a negative length gives an invalid checksum; otherwise the result is right exactly if no more
      subtractions are needed than the code makes. */
  method Combine(noDivide: bool, adler1: uint32, adler2: uint32, len2: int64) returns (r: uint32)
    ensures len2 < 0 ==> r == 0xffff_ffff
    ensures len2 >= 0 ==> (Split(r) == Combined(Split(adler1), Split(adler2), len2 as int) <==>
                           CombinesWell(Split(adler1), Split(adler2), len2 as int))
  {
    hide Split, Halves;
    if len2 < 0 { return 0xffff_ffff; }
    SplitIs(adler1);
    SplitIs(adler2);
    var rem64 := Mod63(noDivide, len2);
    var rem := rem64 as uint32;
    var sum1 := FirstSum(adler1, adler2);
    var sum2 := SecondSum(noDivide, rem, adler1, adler2);
    ghost var a, b := Split(adler1), Split(adler2);
    HalvesExact(a.s1 + b.s1 + BASE - 1, rem as nat * a.s1 % BASE + a.s2 + b.s2 + BASE - rem as nat, sum1, sum2);
    r := Halves(sum1, sum2);
  }

  method FirstSum(adler1: uint32, adler2: uint32) returns (sum1: uint32)
    ensures var x := Split(adler1).s1 + Split(adler2).s1 + BASE - 1;
            x < 3 * BASE + 28 && sum1 as nat == (if x < BASE then x else if x < 2 * BASE then x - BASE else x - 2 * BASE)
  {
    sum1 := adler1 % 0x1_0000;
    sum1 := sum1 + (adler2 % 0x1_0000) + 65521 - 1;
    if sum1 >= 65521 { sum1 := sum1 - 65521; }
    if sum1 >= 65521 { sum1 := sum1 - 65521; }
  }

  lemma ProductFits(x: nat, y: nat)
    requires x < BASE && y < 0x1_0000
    ensures 0 <= x * y <= 0xffff_ffff
  {
    Monotone(x, y, 0xffff);
    Monotone(x, 0, y);
    assert x * 0xffff <= 65520 * 0xffff;
  }

  function Product32(x: uint32, y: uint32): (p: uint32)
    requires x < 65521 && y < 0x1_0000
    ensures p as nat == x as nat * y as nat
  {
    ProductFits(x as nat, y as nat);
    x * y
  }

  method RemTimes(noDivide: bool, rem: uint32, sum1: uint32) returns (sum2: uint32)
    requires rem < 65521 && sum1 < 0x1_0000
    ensures sum2 as nat == rem as nat * sum1 as nat % BASE
  {
    var product := Product32(rem, sum1);
    sum2 := Mod(noDivide, product);
  }

  method SecondSum(noDivide: bool, rem: uint32, adler1: uint32, adler2: uint32) returns (sum2: uint32)
    requires rem < 65521
    ensures var y := rem as nat * Split(adler1).s1 % BASE + Split(adler1).s2 + Split(adler2).s2 + BASE - rem as nat;
            && y < 4 * BASE + 28
            && sum2 as nat == (if y < BASE then y else if y < 2 * BASE then y - BASE else if y < 3 * BASE then y - 2 * BASE else y - 3 * BASE)
  {
    sum2 := RemTimes(noDivide, rem, adler1 % 0x1_0000);
    sum2 := sum2 + (adler1 / 0x1_0000) + (adler2 / 0x1_0000) + 65521 - rem;
    if sum2 >= 65521 * 2 { sum2 := sum2 - 65521 * 2; }
    if sum2 >= 65521 { sum2 := sum2 - 65521; }
  }

  /** What combining is for: the checksum of a concatenation from the checksums of its parts. */
  method CombineParts(noDivide: bool, s: seq<uint8>, t: seq<uint8>, adler1: uint32, adler2: uint32) returns (r: uint32)
    requires |t| < 0x8000_0000_0000_0000 && Split(adler1) == Adler(s) && Split(adler2) == Adler(t)
    ensures Split(r) == Adler(s + t)
  {
    DeferredModulo(Start, s);
    DeferredModulo(Start, t);
    ReducedCombines(Adler(s), Adler(t), |t|);
    r := Combine(noDivide, adler1, adler2, |t| as int64);
    AdlerOfConcat(s, t);
  }
}
