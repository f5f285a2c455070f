/** Chunk sizes and zone layout of slab.c. */
module SlabSizes {

  const PAGE := 4096
  const ZONES := 72           // NZONES
  const HEADER := 36          // sizeof(slab_zone)

  /** (n + k - 1) & ~(k - 1). */
  function RoundUp(n: nat, k: nat): nat
    requires k > 0
  {
    (n + k - 1) / k * k
  }

  lemma RoundUpIs(n: nat, k: nat)
    requires k > 0
    ensures n <= RoundUp(n, k) < n + k && RoundUp(n, k) % k == 0
  {
    DivTimes(n + k - 1, k);
    ModZero((n + k - 1) / k, k);
  }

  lemma DivTimes(x: nat, k: nat)
    requires k > 0
    ensures x - k < x / k * k <= x
  {}

  lemma ModZero(q: nat, k: nat)
    requires k > 0
    ensures q * k % k == 0
  {
    ModShift(0, q, k);
  }

  /** Quotient and remainder are unique. */
  lemma ModShift(x: nat, q: nat, k: nat)
    requires k > 0 && x < k
    ensures (x + q * k) % k == x && (x + q * k) / k == q
  {
    var y := x + q * k;
    var p, r := y / k, y % k;
    assert y == p * k + r;
    if p < q {
      LessTimes(p + 1, q, k);
      Distribute(p, 1, k);
    } else if q < p {
      LessTimes(q + 1, p, k);
      Distribute(q, 1, k);
    }
  }

  // ---- the 72 chunk sizes ----

  function ChunkOf(i: nat): nat {
    if i < 16 then 8 * (i + 1)
    else if i < 24 then 16 * (i - 7)
    else if i < 32 then 32 * (i - 15)
    else if i < 40 then 64 * (i - 23)
    else if i < 48 then 128 * (i - 31)
    else if i < 56 then 256 * (i - 39)
    else if i < 64 then 512 * (i - 47)
    else 1024 * (i - 55)
  }

  lemma ChunkGrows(i: nat, j: nat)
    requires i < j < ZONES
    ensures 8 <= ChunkOf(i) < ChunkOf(j) <= 16384 && ChunkOf(i) % 8 == 0
  {}

  /** i is the least of the chunk sizes that holds n bytes; the waste is below 8 bytes or an eighth. */
  predicate Fits(n: nat, i: int, bytes: nat) {
    && 0 <= i < ZONES && bytes == ChunkOf(i) && n <= bytes
    && (i > 0 ==> ChunkOf(i - 1) < n)
    && (bytes - n < 8 || 8 * (bytes - n) < n)
  }

  lemma Class8(n: nat)
    requires 0 < n < 128
    ensures var bytes := (n + 7) / 8 * 8; Fits(n, bytes / 8 - 1, bytes)
  {}

  lemma Class16(n: nat)
    requires 128 <= n < 256
    ensures var bytes := (n + 15) / 16 * 16; Fits(n, bytes / 16 + 7, bytes)
  {}

  lemma Class32(n: nat)
    requires 256 <= n < 512
    ensures var bytes := (n + 31) / 32 * 32; Fits(n, bytes / 32 + 15, bytes)
  {}

  lemma Class64(n: nat)
    requires 512 <= n < 1024
    ensures var bytes := (n + 63) / 64 * 64; Fits(n, bytes / 64 + 23, bytes)
  {}

  lemma Class128(n: nat)
    requires 1024 <= n < 2048
    ensures var bytes := (n + 127) / 128 * 128; Fits(n, bytes / 128 + 31, bytes)
  {}

  lemma Class256(n: nat)
    requires 2048 <= n < 4096
    ensures var bytes := (n + 255) / 256 * 256; Fits(n, bytes / 256 + 39, bytes)
  {}

  lemma Class512(n: nat)
    requires 4096 <= n < 8192
    ensures var bytes := (n + 511) / 512 * 512; Fits(n, bytes / 512 + 47, bytes)
  {}

  lemma Class1024(n: nat)
    requires 8192 <= n < 16384
    ensures var bytes := (n + 1023) / 1024 * 1024; Fits(n, bytes / 1024 + 55, bytes)
  {}

  /** zoneindex, which also rounds the size up. */
  method ZoneIndex(n: nat) returns (index: nat, bytes: nat)
    requires 0 < n < 16384
    ensures Fits(n, index, bytes) && index == IndexOfSize(n)
  {
    hide Fits, ChunkOf;
    if n < 128 {
      Class8(n);
      bytes := (n + 7) / 8 * 8;
      index := Index(n, bytes / 8 - 1, bytes);
    } else if n < 256 {
      Class16(n);
      bytes := (n + 15) / 16 * 16;
      index := Index(n, bytes / 16 + 7, bytes);
    } else if n < 512 {
      Class32(n);
      bytes := (n + 31) / 32 * 32;
      index := Index(n, bytes / 32 + 15, bytes);
    } else if n < 1024 {
      Class64(n);
      bytes := (n + 63) / 64 * 64;
      index := Index(n, bytes / 64 + 23, bytes);
    } else if n < 2048 {
      Class128(n);
      bytes := (n + 127) / 128 * 128;
      index := Index(n, bytes / 128 + 31, bytes);
    } else if n < 4096 {
      Class256(n);
      bytes := (n + 255) / 256 * 256;
      index := Index(n, bytes / 256 + 39, bytes);
    } else if n < 8192 {
      Class512(n);
      bytes := (n + 511) / 512 * 512;
      index := Index(n, bytes / 512 + 47, bytes);
    } else {
      Class1024(n);
      bytes := (n + 1023) / 1024 * 1024;
      index := Index(n, bytes / 1024 + 55, bytes);
    }
  }

  function Index(n: nat, i: int, bytes: nat): (r: nat)
    requires 0 < n < 16384 && Fits(n, i, bytes)
    ensures r == i && r == IndexOfSize(n)
  {
    IndexUnique(n, i);
    i
  }

  /** The least index whose chunks hold n bytes. */
  ghost function IndexOfSize(n: nat): (i: nat)
    requires 0 < n < 16384
    ensures i < ZONES && n <= ChunkOf(i) && (i > 0 ==> ChunkOf(i - 1) < n)
  {
    Smallest(n, 0)
  }

  ghost function Smallest(n: nat, i: nat): (j: nat)
    requires n < 16384 && i < ZONES && (i > 0 ==> ChunkOf(i - 1) < n)
    ensures j < ZONES && n <= ChunkOf(j) && (j > 0 ==> ChunkOf(j - 1) < n)
    decreases ZONES - i
  {
    if n <= ChunkOf(i) then i else Smallest(n, i + 1)
  }

  lemma IndexUnique(n: nat, i: nat)
    requires 0 < n < 16384 && i < ZONES && n <= ChunkOf(i) && (i > 0 ==> ChunkOf(i - 1) < n)
    ensures i == IndexOfSize(n)
  {
    var j := IndexOfSize(n);
    if i < j && i < j - 1 { ChunkGrows(i, j - 1); }
    if j < i && j < i - 1 { ChunkGrows(j, i - 1); }
  }

  // ---- the layout of a zone ----

  predicate PowerOfTwo(n: nat) {
    n == 1 || (n > 1 && n % 2 == 0 && PowerOfTwo(n / 2))
  }

  /** Where the chunks begin: power-of-two chunks are aligned to their size within the zone. */
  function Offset(chunk: nat): nat
    requires chunk > 0
  {
    if PowerOfTwo(chunk) then RoundUp(HEADER, chunk) else RoundUp(HEADER, 8)
  }

  predicate ZoneSize(size: nat) { size == 0x8000 || size == 0x1_0000 || size == 0x2_0000 }

  function Limit(size: nat): nat { if size / 4 > 16384 then 16384 else size / 4 }

  function Capacity(size: nat, chunk: nat): int
    requires chunk > 0
  {
    (size - Offset(chunk)) / chunk
  }

  /** Every zone has room for at least two chunks behind its header, and for no byte more than it has. */
  lemma ZoneFits(size: nat, i: nat)
    requires ZoneSize(size) && i < ZONES && ChunkOf(i) <= Limit(size)
    ensures var c := ChunkOf(i); HEADER <= Offset(c) && Capacity(size, c) >= 2 && Offset(c) + Capacity(size, c) * c <= size
  {
    var c := ChunkOf(i);
    RoundUpIs(HEADER, c);
    RoundUpIs(HEADER, 8);
    Quotient(size - Offset(c), c, 2);
  }

  lemma Quotient(x: nat, c: nat, q: nat)
    requires c > 0 && q * c <= x
    ensures x / c >= q && x / c * c <= x
  {
    DivTimes(x, c);
    if x / c < q { LessTimes(x / c + 1, q, c); }
  }

  lemma LessTimes(x: nat, y: nat, c: nat)
    requires x <= y
    ensures x * c <= y * c
  {}

  /** Of two powers of two the smaller divides the larger. */
  lemma {:induction false} PowerDivides(m: nat, n: nat)
    requires PowerOfTwo(m) && PowerOfTwo(n) && m <= n
    ensures m > 0 && n % m == 0
  {
    if m > 1 {
      PowerDivides(m / 2, n / 2);
      var q := n / 2 / (m / 2);
      assert n / 2 == q * (m / 2);
      assert n == q * m;
      ModZero(q, m);
    }
  }

  /** Every page is aligned to every power of two up to its size. */
  lemma PageAligned(a: nat, chunk: nat)
    requires PowerOfTwo(chunk) && chunk <= PAGE
    ensures chunk > 0 && a * PAGE % chunk == 0
  {
    PagePower();
    Multiple(a, PAGE, chunk);
  }

  lemma PagePower()
    ensures PowerOfTwo(PAGE)
  {}

  lemma Multiple(a: nat, n: nat, m: nat)
    requires PowerOfTwo(m) && PowerOfTwo(n) && m <= n
    ensures m > 0 && a * n % m == 0
  {
    hide PowerOfTwo;
    PowerDivides(m, n);
    var q := n / m;
    assert n == q * m;
    Associate(a, q, m);
    ModZero(a * q, m);
  }

  lemma Associate(a: nat, q: nat, m: nat)
    ensures a * (q * m) == (a * q) * m
  {}

  /** A power-of-two chunk is aligned to its size in memory exactly when its zone is. */
  lemma PowerAligned(a: nat, chunk: nat, k: nat)
    requires chunk > 0 && PowerOfTwo(chunk)
    ensures (a + Offset(chunk) + k * chunk) % chunk == 0 <==> a % chunk == 0
  {
    var q := (HEADER + chunk - 1) / chunk + k;
    assert Offset(chunk) + k * chunk == q * chunk by { Distribute((HEADER + chunk - 1) / chunk, k, chunk); }
    ModAddMultiple(a, q, chunk);
  }

  lemma Distribute(x: nat, y: nat, c: nat)
    ensures x * c + y * c == (x + y) * c
  {}

  lemma ModAddMultiple(a: nat, q: nat, c: nat)
    requires c > 0
    ensures (a + q * c) % c == a % c
  {
    var r := a % c;
    assert a == r + a / c * c;
    Distribute(a / c, q, c);
    ModShift(r, a / c + q, c);
  }

  lemma ChunkEnd(i: nat, n: nat, c: nat)
    requires i < n
    ensures i * c + c <= n * c
  {
    LessTimes(i + 1, n, c);
    Distribute(i, 1, c);
  }
}
