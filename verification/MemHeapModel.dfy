/** The memory heap of memheap.c as a list of blocks in address order and a free list.

    Addresses are counted from start_addr. The header of the free list lies in the heap
    object, outside the pool, and has the address HEADER. */
module MemHeapModel {
  import opened Blocks
  import opened Rings

  const ALIGN := 4
  const HDR := 24       // RT_MEMHEAP_SIZE, six words
  const MINI := 12      // RT_MEMHEAP_MINIALLOC
  const HEADER := -1
  const NULL := -2

  /** All blocks in address order, the tailer last, and the free blocks in list order. */
  datatype Heap = Heap(blocks: seq<Block>, free: seq<int>)

  function Rounded(size: nat): (r: nat)
    ensures r >= size && r >= MINI && r % ALIGN == 0
  {
    var up := (size + ALIGN - 1) / ALIGN * ALIGN;
    if up < MINI then MINI else up
  }

  function Size(b: seq<Block>, i: nat): int
    requires i + 1 < |b|
  {
    b[i + 1].addr - b[i].addr - HDR
  }

  // ---- what every reachable heap satisfies ----

  /** The blocks tile the pool from its start to the tailer, which is in use. */
  ghost predicate Tiled(b: seq<Block>, pool: int) {
    && |b| >= 2 && b[0].addr == 0 && b[|b| - 1] == Block(pool - HDR, true)
    && (forall i, j :: 0 <= i < j < |b| ==> b[i].addr + HDR <= b[j].addr)
    && (forall i :: 0 <= i < |b| ==> b[i].addr % ALIGN == 0)
  }

  /** The free list holds exactly the unused blocks, each once. */
  ghost predicate Listed(h: Heap) {
    && Distinct(h.free)
    && (forall i :: 0 <= i < |h.blocks| ==> (h.blocks[i].addr in h.free <==> !h.blocks[i].used))
    && (forall k :: 0 <= k < |h.free| ==> h.free[k] in Addrs(h.blocks))
  }

  ghost predicate Good(h: Heap, pool: int) {
    Tiled(h.blocks, pool) && Coalesced(h.blocks) && Listed(h)
  }

  /** Payload bytes of all free blocks. */
  function FreeBytes(b: seq<Block>): int {
    if |b| < 2 then 0 else (if b[0].used then 0 else Size(b, 0)) + FreeBytes(b[1..])
  }

  // ---- the operations ----

  /** Payload size of the block at address a, zero when a is no block. */
  function SizeAt(b: seq<Block>, a: int): int {
    if a in Addrs(b) && Find(b, a) + 1 < |b| then Size(b, Find(b, a)) else 0
  }

  /** The first entry from k on that is large enough, |free| if there is none. */
  function FirstFit(h: Heap, size: int, k: nat): (r: nat)
    requires k <= |h.free|
    ensures k <= r <= |h.free|
    ensures forall j :: k <= j < r ==> SizeAt(h.blocks, h.free[j]) < size
    ensures r < |h.free| ==> SizeAt(h.blocks, h.free[r]) >= size
    decreases |h.free| - k
  {
    if k == |h.free| || SizeAt(h.blocks, h.free[k]) >= size then k else FirstFit(h, size, k + 1)
  }

  predicate Splits(b: seq<Block>, i: nat, size: int)
    requires i + 1 < |b|
  {
    Size(b, i) >= size + HDR + MINI
  }

  /** Hand out free[k], which is block i, and put what is left over at the head of the list. */
  function Take(h: Heap, k: nat, i: nat, size: int): Heap
    requires k < |h.free| && i + 1 < |h.blocks|
  {
    var b, rest, taken := h.blocks, Without(h.free, k), Block(h.blocks[i].addr, true);
    if Splits(b, i, size) then
      var n := b[i].addr + HDR + size;
      Heap(Splice(b, i, i + 1, [taken, Block(n, false)]), [n] + rest)
    else
      Heap(Splice(b, i, i + 1, [taken]), rest)
  }

  function Alloc(h: Heap, request: nat): (Heap, int) {
    var size := Rounded(request);
    if size >= FreeBytes(h.blocks) then (h, NULL)
    else
      var k := FirstFit(h, size, 0);
      if k == |h.free| || h.free[k] !in Addrs(h.blocks) || Find(h.blocks, h.free[k]) + 1 >= |h.blocks| then (h, NULL)
      else (Take(h, k, Find(h.blocks, h.free[k]), size), h.free[k] + HDR)
  }

  predicate MergesLeft(b: seq<Block>, i: nat)
    requires i < |b|
  {
    i > 0 && !b[i - 1].used
  }

  predicate MergesRight(b: seq<Block>, i: nat)
    requires i + 1 < |b|
  {
    !b[i + 1].used
  }

  /** Give back block i: the left neighbour absorbs it, and it absorbs the right one. */
  function Release(h: Heap, i: nat): Heap
    requires i + 1 < |h.blocks|
  {
    var b := h.blocks;
    var left, right := MergesLeft(b, i), MergesRight(b, i);
    var first, end := if left then i - 1 else i, if right then i + 2 else i + 1;
    var rest := if right then Unlisted(h.free, b[i + 1].addr) else h.free;
    Heap(Splice(b, first, end, [Block(b[first].addr, false)]), if left then rest else [b[i].addr] + rest)
  }

  /** Move the border between block i and the free block behind it. */
  function MoveBorder(h: Heap, i: nat, size: int): Heap
    requires i + 2 < |h.blocks|
  {
    var b := h.blocks;
    var n := b[i].addr + HDR + size;
    Heap(Splice(b, i, i + 2, [b[i], Block(n, false)]), [n] + Unlisted(h.free, b[i + 1].addr))
  }

  /** Cut the tail off block i as a new free block in front of a used one. */
  function CutTail(h: Heap, i: nat, size: int): Heap
    requires i + 1 < |h.blocks|
  {
    var b := h.blocks;
    var n := b[i].addr + HDR + size;
    Heap(Splice(b, i, i + 1, [b[i], Block(n, false)]), [n] + h.free)
  }

  predicate GrowsInPlace(b: seq<Block>, i: nat, size: int)
    requires i + 1 < |b|
  {
    i + 2 < |b| && !b[i + 1].used && Size(b, i + 1) + Size(b, i) > size + MINI
  }

  /** Change the size of block i; when it cannot stay, allocate, copy and free. */
  function Resize(h: Heap, i: nat, request: nat): (Heap, int)
    requires i + 1 < |h.blocks|
  {
    var b, size := h.blocks, Rounded(request);
    var ptr := b[i].addr + HDR;
    if size > Size(b, i) then
      if GrowsInPlace(b, i, size) then (MoveBorder(h, i, size), ptr)
      else
        var (h', moved) := Alloc(h, size);
        if moved == NULL then (h, NULL)
        else (ReleaseAt(h', b[i].addr), moved)
    else if size + HDR + MINI >= Size(b, i) then (h, ptr)
    else if i + 2 < |b| && !b[i + 1].used then (MoveBorder(h, i, size), ptr)
    else (CutTail(h, i, size), ptr)
  }

  function ReleaseAt(h: Heap, a: int): Heap {
    if a in Addrs(h.blocks) && Find(h.blocks, a) + 1 < |h.blocks| then Release(h, Find(h.blocks, a)) else h
  }

  // ---- the invariant is kept ----

  lemma {:induction false} FindUnique(b: seq<Block>, pool: int, i: nat)
    requires Tiled(b, pool) && i < |b|
    ensures b[i].addr in Addrs(b) && Find(b, b[i].addr) == i
  {
    assert b[i].addr in Addrs(b);
    var j := Find(b, b[i].addr);
  }

  // ---- splices ----

  /** The replacement starts where block i starts and ends before block j. */
  ghost predicate Fits(b: seq<Block>, i: nat, j: nat, mid: seq<Block>) {
    && i < j < |b| && |mid| > 0 && mid[0].addr == b[i].addr
    && (forall p, q :: 0 <= p < q < |mid| ==> mid[p].addr + HDR <= mid[q].addr)
    && (forall p :: 0 <= p < |mid| ==> mid[p].addr + HDR <= b[j].addr && mid[p].addr % ALIGN == 0)
  }

  lemma SpliceGaps(b: seq<Block>, pool: int, i: nat, j: nat, mid: seq<Block>, p: nat, q: nat)
    requires Tiled(b, pool) && Fits(b, i, j, mid) && p < q < |Splice(b, i, j, mid)|
    ensures Splice(b, i, j, mid)[p].addr + HDR <= Splice(b, i, j, mid)[q].addr
  {
    var s, m := Splice(b, i, j, mid), |mid|;
    assert s[p] == if p < i then b[p] else if p < i + m then mid[p - i] else b[p - m + j - i];
    assert s[q] == if q < i then b[q] else if q < i + m then mid[q - i] else b[q - m + j - i];
    if p < i {
      assert b[p].addr + HDR <= b[i].addr;
      if i < q < i + m { assert mid[0].addr <= mid[q - i].addr; }
    } else if p < i + m <= q {
      assert mid[p - i].addr + HDR <= b[j].addr;
    }
  }

  lemma SpliceTiled(b: seq<Block>, pool: int, i: nat, j: nat, mid: seq<Block>)
    requires Tiled(b, pool) && Fits(b, i, j, mid)
    ensures Tiled(Splice(b, i, j, mid), pool)
  {
    var s, m := Splice(b, i, j, mid), |mid|;
    forall p, q | 0 <= p < q < |s|
      ensures s[p].addr + HDR <= s[q].addr
    {
      SpliceGaps(b, pool, i, j, mid, p, q);
    }
    forall p | 0 <= p < |s|
      ensures s[p].addr % ALIGN == 0
    {
      assert s[p] == if p < i then b[p] else if p < i + m then mid[p - i] else b[p - m + j - i];
    }
  }

  lemma SpliceCoalesced(b: seq<Block>, i: nat, j: nat, mid: seq<Block>)
    requires Coalesced(b) && Fits(b, i, j, mid) && Coalesced(mid)
    requires i > 0 ==> b[i - 1].used || mid[0].used
    requires mid[|mid| - 1].used || b[j].used
    ensures Coalesced(Splice(b, i, j, mid))
  {
    var s, m := Splice(b, i, j, mid), |mid|;
    forall p | 0 <= p < |s| - 1
      ensures s[p].used || s[p + 1].used
    {
      assert s[p] == if p < i then b[p] else if p < i + m then mid[p - i] else b[p - m + j - i];
      assert s[p + 1] == if p + 1 < i then b[p + 1] else if p + 1 < i + m then mid[p + 1 - i] else b[p + 1 - m + j - i];
    }
  }

  /** x is the address of a free block of s. */
  ghost predicate IsFree(s: seq<Block>, x: int) {
    exists p :: 0 <= p < |s| && s[p].addr == x && !s[p].used
  }

  lemma ListedMeans(h: Heap, x: int)
    requires Listed(h)
    ensures x in h.free <==> IsFree(h.blocks, x)
  {
    if x in h.free {
      var k :| 0 <= k < |h.free| && h.free[k] == x;
      var i := Find(h.blocks, x);
    }
  }

  lemma ListedFrom(h: Heap, pool: int)
    requires Tiled(h.blocks, pool) && Distinct(h.free)
    requires forall x :: x in h.free <==> IsFree(h.blocks, x)
    ensures Listed(h)
  {
    var b := h.blocks;
    forall i | 0 <= i < |b|
      ensures b[i].addr in h.free <==> !b[i].used
    {
      if b[i].addr in h.free {
        var p :| 0 <= p < |b| && b[p].addr == b[i].addr && !b[p].used;
      }
    }
    forall k | 0 <= k < |h.free|
      ensures h.free[k] in Addrs(b)
    {
      assert IsFree(b, h.free[k]);
    }
  }

  lemma SpliceFreeOnlyIf(b: seq<Block>, pool: int, i: nat, j: nat, mid: seq<Block>, x: int, p: nat)
    requires Tiled(b, pool) && Fits(b, i, j, mid)
    requires p < |Splice(b, i, j, mid)| && Splice(b, i, j, mid)[p] == Block(x, false)
    ensures IsFree(mid, x) || (IsFree(b, x) && x !in Addrs(b[i..j]))
  {
    var s, m := Splice(b, i, j, mid), |mid|;
    if i <= p < i + m {
      assert mid[p - i] == s[p];
    } else {
      var p' := if p < i then p else p - m + j - i;
      assert b[p'] == s[p];
      NotInside(b, pool, i, j, p');
    }
  }

  lemma NotInside(b: seq<Block>, pool: int, i: nat, j: nat, p: nat)
    requires Tiled(b, pool) && i <= j <= |b| && p < |b| && !(i <= p < j)
    ensures b[p].addr !in Addrs(b[i..j])
  {
    forall q | 0 <= q < |b[i..j]|
      ensures b[i..j][q].addr != b[p].addr
    {
      assert b[i..j][q] == b[i + q];
    }
  }

  lemma InsideSlice(b: seq<Block>, i: nat, j: nat, p: nat)
    requires i <= j <= |b| && p < |b|
    ensures i <= p < j ==> b[p].addr in Addrs(b[i..j])
  {
    if i <= p < j { assert b[i..j][p - i] == b[p]; }
  }

  /** Between two headers there are only the headers of the blocks between them. */
  lemma InsideOnly(b: seq<Block>, pool: int, i: nat, j: nat, x: int)
    requires Tiled(b, pool) && i < j < |b| && b[i].addr <= x < b[j].addr && x in Addrs(b)
    ensures x in Addrs(b[i..j])
  {
    InsideSlice(b, i, j, Find(b, x));
  }

  lemma SpliceFreeIfOld(b: seq<Block>, i: nat, j: nat, mid: seq<Block>, x: int, p: nat)
    requires Fits(b, i, j, mid) && p < |b| && b[p] == Block(x, false) && x !in Addrs(b[i..j])
    ensures IsFree(Splice(b, i, j, mid), x)
  {
    InsideSlice(b, i, j, p);
    assert Splice(b, i, j, mid)[if p < i then p else p + |mid| - j + i] == b[p];
  }

  /** Which blocks are free after a splice. */
  lemma SpliceFree(b: seq<Block>, pool: int, i: nat, j: nat, mid: seq<Block>, x: int)
    requires Tiled(b, pool) && Fits(b, i, j, mid)
    ensures IsFree(Splice(b, i, j, mid), x) <==> IsFree(mid, x) || (IsFree(b, x) && x !in Addrs(b[i..j]))
  {
    var s := Splice(b, i, j, mid);
    if IsFree(s, x) {
      var p :| 0 <= p < |s| && s[p].addr == x && !s[p].used;
      SpliceFreeOnlyIf(b, pool, i, j, mid, x, p);
    }
    if IsFree(mid, x) {
      var p :| 0 <= p < |mid| && mid[p].addr == x && !mid[p].used;
      assert s[i + p] == mid[p];
    }
    if IsFree(b, x) && x !in Addrs(b[i..j]) {
      var p :| 0 <= p < |b| && b[p].addr == x && !b[p].used;
      SpliceFreeIfOld(b, i, j, mid, x, p);
    }
  }

  lemma SpliceListed(h: Heap, pool: int, i: nat, j: nat, mid: seq<Block>, free': seq<int>)
    requires Good(h, pool) && Fits(h.blocks, i, j, mid) && Distinct(free')
    requires forall x :: x in free' <==> IsFree(mid, x) || (x in h.free && x !in Addrs(h.blocks[i..j]))
    ensures Listed(Heap(Splice(h.blocks, i, j, mid), free'))
  {
    var s := Splice(h.blocks, i, j, mid);
    SpliceTiled(h.blocks, pool, i, j, mid);
    forall x
      ensures x in free' <==> IsFree(s, x)
    {
      SpliceFree(h.blocks, pool, i, j, mid, x);
      ListedMeans(h, x);
    }
    ListedFrom(Heap(s, free'), pool);
  }

  // ---- free bytes ----

  lemma {:induction false} FreeBytesConcat(x: seq<Block>, m: Block, m': Block, y: seq<Block>)
    requires m.addr == m'.addr
    ensures FreeBytes(x + [m] + y) == FreeBytes(x + [m']) + FreeBytes([m] + y)
  {
    if x == [] {
      assert x + [m] + y == [m] + y && x + [m'] == [m'];
    } else {
      var s, t := x + [m] + y, x + [m'];
      assert s[1..] == x[1..] + [m] + y && t[1..] == x[1..] + [m'];
      FreeBytesConcat(x[1..], m, m', y);
      assert s[1].addr == t[1].addr;
    }
  }

  /** A splice changes the number of free bytes by what it changes locally. */
  lemma SpliceFreeBytes(b: seq<Block>, i: nat, j: nat, mid: seq<Block>)
    requires Fits(b, i, j, mid)
    ensures FreeBytes(Splice(b, i, j, mid)) - FreeBytes(mid + [b[j]]) == FreeBytes(b) - FreeBytes(b[i..j] + [b[j]])
  {
    hide Splice, FreeBytes;
    var x, y := b[..i], b[j + 1..];
    FreeBytesThree(x, b[i], b[i..j], b[j], y);
    FreeBytesThree(x, b[i], mid, b[j], y);
    SpliceByParts(b, i, j, mid);
  }

  lemma FreeBytesThree(x: seq<Block>, first: Block, mid: seq<Block>, m: Block, y: seq<Block>)
    requires |mid| > 0 && mid[0].addr == first.addr
    ensures FreeBytes(x + mid + [m] + y) == FreeBytes(x + [first]) + FreeBytes(mid + [m]) + FreeBytes([m] + y)
  {
    FreeBytesConcat(x + mid, m, m, y);
    assert x + mid + [m] == x + [mid[0]] + (mid[1..] + [m]);
    FreeBytesConcat(x, mid[0], first, mid[1..] + [m]);
    assert [mid[0]] + (mid[1..] + [m]) == mid + [m];
  }

  // ---- every operation keeps the invariant ----

  /** What an operation has to show about its splice and its new free list. */
  ghost predicate Legal(h: Heap, i: nat, j: nat, mid: seq<Block>, free': seq<int>) {
    && Fits(h.blocks, i, j, mid) && Coalesced(mid)
    && (i > 0 ==> h.blocks[i - 1].used || mid[0].used)
    && (mid[|mid| - 1].used || h.blocks[j].used)
    && Distinct(free')
    && (forall x :: x in free' <==> IsFree(mid, x) || (x in h.free && x !in Addrs(h.blocks[i..j])))
  }

  lemma LegalGood(h: Heap, pool: int, i: nat, j: nat, mid: seq<Block>, free': seq<int>)
    requires Good(h, pool) && Legal(h, i, j, mid, free')
    ensures Good(Heap(Splice(h.blocks, i, j, mid), free'), pool)
  {
    SpliceTiled(h.blocks, pool, i, j, mid);
    SpliceCoalesced(h.blocks, i, j, mid);
    SpliceListed(h, pool, i, j, mid, free');
  }

  lemma FreeOfPair(a: int, n: int, used: bool, x: int)
    ensures IsFree([Block(a, used), Block(n, false)], x) <==> x == n || (!used && x == a)
    ensures IsFree([Block(a, used)], x) <==> !used && x == a
  {
    var two, one := [Block(a, used), Block(n, false)], [Block(a, used)];
    assert two[1] == Block(n, false) && two[0] == one[0] == Block(a, used);
  }

  lemma SliceAddrs(b: seq<Block>, i: nat)
    requires i < |b|
    ensures Addrs(b[i..i + 1]) == {b[i].addr}
    ensures i + 1 < |b| ==> Addrs(b[i..i + 2]) == {b[i].addr, b[i + 1].addr}
    ensures i + 2 < |b| ==> Addrs(b[i..i + 3]) == {b[i].addr, b[i + 1].addr, b[i + 2].addr}
  {
    assert b[i..i + 1] == [b[i]];
    if i + 1 < |b| { PairAddrs(b[i..i + 2]); }
    if i + 2 < |b| { TripleAddrs(b[i..i + 3]); }
  }

  lemma PairAddrs(s: seq<Block>)
    requires |s| == 2
    ensures Addrs(s) == {s[0].addr, s[1].addr}
  {}

  lemma TripleAddrs(s: seq<Block>)
    requires |s| == 3
    ensures Addrs(s) == {s[0].addr, s[1].addr, s[2].addr}
  {}

  lemma ConsDistinct(n: int, s: seq<int>)
    requires Distinct(s) && n !in s
    ensures Distinct([n] + s)
  {}

  lemma TakeMembers(h: Heap, k: nat, i: nat, mid: seq<Block>, new': seq<int>, x: int)
    requires Listed(h) && k < |h.free| && i < |h.blocks| && h.free[k] == h.blocks[i].addr
    requires IsFree(mid, x) <==> x in new'
    ensures x in new' + Without(h.free, k) <==> IsFree(mid, x) || (x in h.free && x !in Addrs(h.blocks[i..i + 1]))
  {
    SliceAddrs(h.blocks, i);
    WithoutMember(h.free, k, x);
  }

  lemma TakeWholeGood(h: Heap, pool: int, k: nat, i: nat)
    requires Good(h, pool) && k < |h.free| && i + 1 < |h.blocks| && h.free[k] == h.blocks[i].addr
    ensures Good(Heap(Splice(h.blocks, i, i + 1, [Block(h.blocks[i].addr, true)]), Without(h.free, k)), pool)
  {
    var mid, free' := [Block(h.blocks[i].addr, true)], Without(h.free, k);
    WithoutDistinct(h.free, k);
    assert [] + free' == free';
    forall x
      ensures x in free' <==> IsFree(mid, x) || (x in h.free && x !in Addrs(h.blocks[i..i + 1]))
    {
      FreeOfPair(h.blocks[i].addr, 0, true, x);
      TakeMembers(h, k, i, mid, [], x);
    }
    LegalGood(h, pool, i, i + 1, mid, free');
  }

  lemma TakeSplitGood(h: Heap, pool: int, k: nat, i: nat, n: int)
    requires Good(h, pool) && k < |h.free| && i + 1 < |h.blocks| && h.free[k] == h.blocks[i].addr
    requires h.blocks[i].addr + HDR <= n && n + HDR <= h.blocks[i + 1].addr && n % ALIGN == 0
    ensures Good(Heap(Splice(h.blocks, i, i + 1, [Block(h.blocks[i].addr, true), Block(n, false)]), [n] + Without(h.free, k)), pool)
  {
    var mid, free' := [Block(h.blocks[i].addr, true), Block(n, false)], [n] + Without(h.free, k);
    NewAddress(h, pool, i, i + 1, n);
    SliceAddrs(h.blocks, i);
    WithoutDistinct(h.free, k);
    WithoutMember(h.free, k, n);
    ConsDistinct(n, Without(h.free, k));
    forall x
      ensures x in free' <==> IsFree(mid, x) || (x in h.free && x !in Addrs(h.blocks[i..i + 1]))
    {
      FreeOfPair(h.blocks[i].addr, n, true, x);
      TakeMembers(h, k, i, mid, [n], x);
    }
    UsedBehindFree(h, i);
    LegalGood(h, pool, i, i + 1, mid, free');
  }

  lemma UsedBehindFree(h: Heap, i: nat)
    requires Listed(h) && Coalesced(h.blocks) && i + 1 < |h.blocks| && h.blocks[i].addr in h.free
    ensures h.blocks[i + 1].used
  {
    assert !h.blocks[i].used;
  }

  /** A new header between block i and block j is on no list, except that of a block it replaces. */
  lemma NewAddress(h: Heap, pool: int, i: nat, j: nat, n: int)
    requires Good(h, pool) && i < j < |h.blocks| && h.blocks[i].addr <= n < h.blocks[j].addr
    ensures n in h.free ==> n in Addrs(h.blocks[i..j])
  {
    if n in h.free {
      var k :| 0 <= k < |h.free| && h.free[k] == n;
      InsideOnly(h.blocks, pool, i, j, n);
    }
  }

  lemma CutPlace(h: Heap, pool: int, i: nat, size: int)
    requires Good(h, pool) && i < |h.blocks| && size % ALIGN == 0
    ensures (h.blocks[i].addr + HDR + size) % ALIGN == 0
  {}

  lemma TakeGood(h: Heap, pool: int, k: nat, i: nat, size: int)
    requires Good(h, pool) && k < |h.free| && i + 1 < |h.blocks| && h.free[k] == h.blocks[i].addr
    requires 0 <= size <= Size(h.blocks, i) && size % ALIGN == 0
    ensures Good(Take(h, k, i, size), pool)
  {
    hide Good, Splice;
    CutPlace(h, pool, i, size);
    if Splits(h.blocks, i, size) {
      TakeSplitGood(h, pool, k, i, h.blocks[i].addr + HDR + size);
    } else {
      TakeWholeGood(h, pool, k, i);
    }
  }

  /** Payload of x when y follows it. */
  function Bytes(x: Block, y: Block): int { if x.used then 0 else y.addr - x.addr - HDR }

  lemma FreeBytesTwo(x: Block, y: Block)
    ensures FreeBytes([x] + [y]) == Bytes(x, y)
  {
    assert FreeBytes(([x] + [y])[1..]) == 0;
  }

  lemma FreeBytesThreeBlocks(x: Block, y: Block, z: Block)
    ensures FreeBytes([x, y] + [z]) == Bytes(x, y) + Bytes(y, z)
  {
    assert ([x, y] + [z])[1..] == [y] + [z];
    FreeBytesTwo(y, z);
  }

  lemma FreeBytesFour(w: Block, x: Block, y: Block, z: Block)
    ensures FreeBytes([w, x, y] + [z]) == Bytes(w, x) + Bytes(x, y) + Bytes(y, z)
  {
    assert ([w, x, y] + [z])[1..] == [x, y] + [z];
    FreeBytesThreeBlocks(x, y, z);
  }

  lemma SpliceOneOne(b: seq<Block>, i: nat, x: Block)
    requires Fits(b, i, i + 1, [x])
    ensures FreeBytes(Splice(b, i, i + 1, [x])) == FreeBytes(b) - Bytes(b[i], b[i + 1]) + Bytes(x, b[i + 1])
  {
    SpliceFreeBytes(b, i, i + 1, [x]);
    assert b[i..i + 1] == [b[i]];
    FreeBytesTwo(b[i], b[i + 1]);
    FreeBytesTwo(x, b[i + 1]);
  }

  lemma SpliceOneTwo(b: seq<Block>, i: nat, x: Block, y: Block)
    requires Fits(b, i, i + 1, [x, y])
    ensures FreeBytes(Splice(b, i, i + 1, [x, y])) == FreeBytes(b) - Bytes(b[i], b[i + 1]) + Bytes(x, y) + Bytes(y, b[i + 1])
  {
    SpliceFreeBytes(b, i, i + 1, [x, y]);
    assert b[i..i + 1] == [b[i]];
    FreeBytesTwo(b[i], b[i + 1]);
    FreeBytesThreeBlocks(x, y, b[i + 1]);
  }

  lemma SpliceTwoTwo(b: seq<Block>, i: nat, x: Block, y: Block)
    requires Fits(b, i, i + 2, [x, y])
    ensures FreeBytes(Splice(b, i, i + 2, [x, y])) ==
            FreeBytes(b) - Bytes(b[i], b[i + 1]) - Bytes(b[i + 1], b[i + 2]) + Bytes(x, y) + Bytes(y, b[i + 2])
  {
    SpliceFreeBytes(b, i, i + 2, [x, y]);
    assert b[i..i + 2] == [b[i], b[i + 1]];
    FreeBytesThreeBlocks(b[i], b[i + 1], b[i + 2]);
    FreeBytesThreeBlocks(x, y, b[i + 2]);
  }

  lemma SpliceTwoOne(b: seq<Block>, i: nat, x: Block)
    requires Fits(b, i, i + 2, [x])
    ensures FreeBytes(Splice(b, i, i + 2, [x])) ==
            FreeBytes(b) - Bytes(b[i], b[i + 1]) - Bytes(b[i + 1], b[i + 2]) + Bytes(x, b[i + 2])
  {
    SpliceFreeBytes(b, i, i + 2, [x]);
    assert b[i..i + 2] == [b[i], b[i + 1]];
    FreeBytesThreeBlocks(b[i], b[i + 1], b[i + 2]);
    FreeBytesTwo(x, b[i + 2]);
  }

  lemma SpliceThreeOne(b: seq<Block>, i: nat, x: Block)
    requires Fits(b, i, i + 3, [x])
    ensures FreeBytes(Splice(b, i, i + 3, [x])) == FreeBytes(b) + Bytes(x, b[i + 3])
            - Bytes(b[i], b[i + 1]) - Bytes(b[i + 1], b[i + 2]) - Bytes(b[i + 2], b[i + 3])
  {
    SpliceFreeBytes(b, i, i + 3, [x]);
    assert b[i..i + 3] == [b[i], b[i + 1], b[i + 2]];
    FreeBytesFour(b[i], b[i + 1], b[i + 2], b[i + 3]);
    FreeBytesTwo(x, b[i + 3]);
  }

  /** Taking a block lowers the free bytes by the request and a header, or by the whole block. */
  lemma TakeFreeBytes(h: Heap, pool: int, k: nat, i: nat, size: int)
    requires Good(h, pool) && k < |h.free| && i + 1 < |h.blocks| && h.free[k] == h.blocks[i].addr
    requires 0 <= size <= Size(h.blocks, i) && size % ALIGN == 0
    ensures FreeBytes(Take(h, k, i, size).blocks) ==
            FreeBytes(h.blocks) - if Splits(h.blocks, i, size) then size + HDR else Size(h.blocks, i)
  {
    var b, a := h.blocks, h.blocks[i].addr;
    assert !b[i].used;
    if Splits(b, i, size) {
      SpliceOneTwo(b, i, Block(a, true), Block(a + HDR + size, false));
    } else {
      SpliceOneOne(b, i, Block(a, true));
    }
  }

  // Release

  lemma ReleaseFits(h: Heap, pool: int, i: nat)
    requires Good(h, pool) && i + 1 < |h.blocks| && h.blocks[i].used
    ensures var left, right := MergesLeft(h.blocks, i), MergesRight(h.blocks, i);
            var first, end := if left then i - 1 else i, if right then i + 2 else i + 1;
            var mid := [Block(h.blocks[first].addr, false)];
      && Fits(h.blocks, first, end, mid) && h.blocks[end].used
      && (first > 0 ==> h.blocks[first - 1].used)
  {}

  /** The end of what a release replaces and the free list without the right neighbour. */
  lemma ReleaseRightMembers(h: Heap, i: nat, x: int)
    requires Listed(h) && i + 1 < |h.blocks| && h.blocks[i].used
    ensures var right := MergesRight(h.blocks, i);
            var rest := if right then Unlisted(h.free, h.blocks[i + 1].addr) else h.free;
      x in rest <==> x in h.free && x !in Addrs(h.blocks[i..if right then i + 2 else i + 1])
  {
    UnlistedMember(h.free, h.blocks[i + 1].addr, x);
    SliceAddrs(h.blocks, i);
  }

  lemma AddrsFromLeft(b: seq<Block>, i: nat, end: nat)
    requires 0 < i <= end <= |b|
    ensures Addrs(b[i - 1..end]) == {b[i - 1].addr} + Addrs(b[i..end])
  {
    assert b[i - 1..end] == [b[i - 1]] + b[i..end];
    forall x | x in Addrs(b[i..end])
      ensures x in Addrs(b[i - 1..end])
    {
      var q := Find(b[i..end], x);
      assert b[i - 1..end][q + 1].addr == x;
    }
  }

  lemma ReleaseMembers(h: Heap, pool: int, i: nat, x: int)
    requires Good(h, pool) && i + 1 < |h.blocks| && h.blocks[i].used
    ensures var left, right := MergesLeft(h.blocks, i), MergesRight(h.blocks, i);
            var first, end := if left then i - 1 else i, if right then i + 2 else i + 1;
      x in Release(h, i).free <==> x == h.blocks[first].addr || (x in h.free && x !in Addrs(h.blocks[first..end]))
  {
    ReleaseRightMembers(h, i, x);
    if MergesLeft(h.blocks, i) {
      var end := if MergesRight(h.blocks, i) then i + 2 else i + 1;
      AddrsFromLeft(h.blocks, i, end);
      NotInside(h.blocks, pool, i, end, i - 1);
    }
  }

  lemma ReleaseGood(h: Heap, pool: int, i: nat)
    requires Good(h, pool) && i + 1 < |h.blocks| && h.blocks[i].used
    ensures Good(Release(h, i), pool)
  {
    var b := h.blocks;
    var left, right := MergesLeft(b, i), MergesRight(b, i);
    var first, end := if left then i - 1 else i, if right then i + 2 else i + 1;
    var mid, free' := [Block(b[first].addr, false)], Release(h, i).free;
    ReleaseFits(h, pool, i);
    forall x
      ensures x in free' <==> IsFree(mid, x) || (x in h.free && x !in Addrs(b[first..end]))
    {
      ReleaseMembers(h, pool, i, x);
      FreeOfPair(b[first].addr, 0, false, x);
    }
    UnlistedMember(h.free, b[i + 1].addr, b[i].addr);
    if !left { ConsDistinct(b[i].addr, if right then Unlisted(h.free, b[i + 1].addr) else h.free); }
    LegalGood(h, pool, first, end, mid, free');
  }

  /** Giving back a block adds its payload, and one header for every merge. */
  lemma ReleaseFreeBytes(h: Heap, pool: int, i: nat)
    requires Good(h, pool) && i + 1 < |h.blocks| && h.blocks[i].used
    ensures FreeBytes(Release(h, i).blocks) == FreeBytes(h.blocks) + Size(h.blocks, i)
      + (if MergesLeft(h.blocks, i) then HDR else 0) + (if MergesRight(h.blocks, i) then HDR else 0)
  {
    hide Listed, Coalesced, Splice, Unlisted;
    var b := h.blocks;
    ReleaseFits(h, pool, i);
    if MergesLeft(b, i) {
      var x := Block(b[i - 1].addr, false);
      if MergesRight(b, i) { SpliceThreeOne(b, i - 1, x); } else { SpliceTwoOne(b, i - 1, x); }
    } else {
      var x := Block(b[i].addr, false);
      if MergesRight(b, i) { SpliceTwoOne(b, i, x); } else { SpliceOneOne(b, i, x); }
    }
  }

  // Moving a border and cutting a tail

  lemma MoveBorderMembers(h: Heap, i: nat, n: int, x: int)
    requires Listed(h) && i + 2 < |h.blocks| && h.blocks[i].used
    ensures x in [n] + Unlisted(h.free, h.blocks[i + 1].addr) <==>
            IsFree([h.blocks[i], Block(n, false)], x) || (x in h.free && x !in Addrs(h.blocks[i..i + 2]))
  {
    SliceAddrs(h.blocks, i);
    UnlistedMember(h.free, h.blocks[i + 1].addr, x);
    FreeOfPair(h.blocks[i].addr, n, true, x);
  }

  lemma BorderFits(b: seq<Block>, pool: int, i: nat, n: int)
    requires Tiled(b, pool) && i + 2 < |b| && n % ALIGN == 0 && b[i].addr + HDR <= n && n + HDR <= b[i + 2].addr
    ensures b[i].addr + HDR <= b[i + 1].addr && b[i + 1].addr + HDR <= b[i + 2].addr
    ensures Fits(b, i, i + 2, [b[i], Block(n, false)])
  {}

  lemma TailFits(b: seq<Block>, pool: int, i: nat, x: Block, n: int)
    requires Tiled(b, pool) && i + 1 < |b| && n % ALIGN == 0 && b[i].addr + HDR <= n && n + HDR <= b[i + 1].addr
    requires x.addr == b[i].addr
    ensures Fits(b, i, i + 1, [x, Block(n, false)]) && Fits(b, i, i + 1, [x])
  {}

  lemma MoveBorderLegal(h: Heap, pool: int, i: nat, n: int)
    requires Good(h, pool) && i + 2 < |h.blocks| && h.blocks[i].used && !h.blocks[i + 1].used
    requires n % ALIGN == 0 && h.blocks[i].addr + HDR <= n && n + HDR <= h.blocks[i + 2].addr
    ensures Legal(h, i, i + 2, [h.blocks[i], Block(n, false)], [n] + Unlisted(h.free, h.blocks[i + 1].addr))
  {
    var b, rest := h.blocks, Unlisted(h.free, h.blocks[i + 1].addr);
    NewAddress(h, pool, i, i + 2, n);
    SliceAddrs(b, i);
    UnlistedMember(h.free, b[i + 1].addr, n);
    ConsDistinct(n, rest);
    BorderFits(b, pool, i, n);
    forall x
      ensures x in [n] + rest <==> IsFree([b[i], Block(n, false)], x) || (x in h.free && x !in Addrs(b[i..i + 2]))
    {
      MoveBorderMembers(h, i, n, x);
    }
  }

  lemma MoveBorderAt(h: Heap, pool: int, i: nat, n: int)
    requires Good(h, pool) && i + 2 < |h.blocks| && h.blocks[i].used && !h.blocks[i + 1].used
    requires n % ALIGN == 0 && h.blocks[i].addr + HDR <= n && n + HDR <= h.blocks[i + 2].addr
    ensures Good(Heap(Splice(h.blocks, i, i + 2, [h.blocks[i], Block(n, false)]),
                      [n] + Unlisted(h.free, h.blocks[i + 1].addr)), pool)
  {
    MoveBorderLegal(h, pool, i, n);
    LegalGood(h, pool, i, i + 2, [h.blocks[i], Block(n, false)], [n] + Unlisted(h.free, h.blocks[i + 1].addr));
  }

  lemma HeaderAligned(b: seq<Block>, pool: int, i: nat, size: nat)
    requires Tiled(b, pool) && i < |b| && size % ALIGN == 0
    ensures (b[i].addr + HDR + size) % ALIGN == 0
  {
    assert b[i].addr % ALIGN == 0;
  }

  lemma MoveBorderGood(h: Heap, pool: int, i: nat, size: nat)
    requires Good(h, pool) && i + 2 < |h.blocks| && h.blocks[i].used && !h.blocks[i + 1].used
    requires size % ALIGN == 0 && h.blocks[i].addr + HDR + size + HDR <= h.blocks[i + 2].addr
    ensures Good(MoveBorder(h, i, size), pool)
  {
    hide Listed, Coalesced, Splice, Unlisted;
    HeaderAligned(h.blocks, pool, i, size);
    MoveBorderAt(h, pool, i, h.blocks[i].addr + HDR + size);
  }

  lemma MoveBorderFreeBytes(h: Heap, pool: int, i: nat, size: nat)
    requires Good(h, pool) && i + 2 < |h.blocks| && h.blocks[i].used && !h.blocks[i + 1].used
    requires size % ALIGN == 0 && h.blocks[i].addr + HDR + size + HDR <= h.blocks[i + 2].addr
    ensures FreeBytes(MoveBorder(h, i, size).blocks) == FreeBytes(h.blocks) + Size(h.blocks, i) - size
  {
    var b, n := h.blocks, h.blocks[i].addr + HDR + size;
    BorderFits(b, pool, i, n);
    SpliceTwoTwo(b, i, b[i], Block(n, false));
  }

  lemma NewIsBehind(h: Heap, pool: int, i: nat, n: int)
    requires Good(h, pool) && i < |h.blocks| && h.blocks[i].addr != n
    ensures n !in Addrs(h.blocks[i..i + 1]) && Distinct(h.free) && (h.blocks[i].used ==> h.blocks[i].addr !in h.free)
    ensures i > 0 && !h.blocks[i].used ==> h.blocks[i - 1].used
  {
    SliceAddrs(h.blocks, i);
  }

  lemma CutTailGood(h: Heap, pool: int, i: nat, size: nat)
    requires Good(h, pool) && i + 1 < |h.blocks| && h.blocks[i].used && h.blocks[i + 1].used
    requires size % ALIGN == 0 && size + HDR <= Size(h.blocks, i)
    ensures Good(CutTail(h, i, size), pool)
  {
    hide Tiled, Coalesced, Listed, IsFree, Addrs, Splice, Distinct;
    var b, n := h.blocks, h.blocks[i].addr + HDR + size;
    var mid, free' := [b[i], Block(n, false)], CutTail(h, i, size).free;
    CutPlace(h, pool, i, size);
    NewIsBehind(h, pool, i, n);
    NewAddress(h, pool, i, i + 1, n);
    SliceAddrs(b, i);
    ConsDistinct(n, h.free);
    forall x
      ensures x in free' <==> IsFree(mid, x) || (x in h.free && x !in Addrs(b[i..i + 1]))
    {
      FreeOfPair(b[i].addr, n, true, x);
    }
    TailFits(b, pool, i, b[i], n);
    LegalGood(h, pool, i, i + 1, mid, free');
  }

  lemma CutTailFreeBytes(h: Heap, pool: int, i: nat, size: nat)
    requires Good(h, pool) && i + 1 < |h.blocks| && h.blocks[i].used && h.blocks[i + 1].used
    requires size % ALIGN == 0 && size + HDR <= Size(h.blocks, i)
    ensures FreeBytes(CutTail(h, i, size).blocks) == FreeBytes(h.blocks) + Size(h.blocks, i) - size - HDR
  {
    var b, n := h.blocks, h.blocks[i].addr + HDR + size;
    TailFits(b, pool, i, b[i], n);
    SpliceOneTwo(b, i, b[i], Block(n, false));
  }
}
