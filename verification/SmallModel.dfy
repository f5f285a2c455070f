/** The small heap of mem.c as a list of blocks in address order. Addresses are offsets from heap_ptr. */
module SmallModel {
  import opened Blocks

  const ALIGN := 4
  const HDR := 12       // SIZEOF_STRUCT_MEM
  const MINI := 12      // MIN_SIZE_ALIGNED, and MIN_SIZE
  const NULL := -1

  /** The last block is heap_end. lfree is where a search begins, peak is max_mem. */
  datatype Heap = Heap(blocks: seq<Block>, lfree: int, peak: int)

  function Up(n: nat): (r: nat)
    ensures n <= r < n + ALIGN && r % ALIGN == 0
  {
    (n + ALIGN - 1) / ALIGN * ALIGN
  }

  function Max(x: int, y: int): int { if x < y then y else x }

  /** Header and payload of block i. */
  function Extent(b: seq<Block>, i: nat): int
    requires i + 1 < |b|
  {
    b[i + 1].addr - b[i].addr
  }

  // ---- what every reachable heap satisfies ----

  /** m is mem_size_aligned: what is left for a single payload. */
  ghost predicate Tiled(b: seq<Block>, m: int) {
    && |b| >= 2 && b[0].addr == 0 && b[|b| - 1] == Block(m + HDR, true)
    && (forall i, j :: 0 <= i < j < |b| ==> b[i].addr + HDR <= b[j].addr)
    && (forall i :: 0 <= i < |b| ==> b[i].addr % ALIGN == 0)
  }

  ghost predicate IsFree(b: seq<Block>, a: int) {
    exists i :: 0 <= i < |b| && b[i] == Block(a, false)
  }

  /** Behind the last header there is room, so that no pointer equals heap_end. */
  ghost predicate EndRoom(b: seq<Block>) {
    |b| >= 2 && Extent(b, |b| - 2) >= HDR + MINI
  }

  /** lfree is a free block or heap_end. */
  ghost predicate Good(h: Heap, m: int) {
    && m >= MINI && m % ALIGN == 0
    && Tiled(h.blocks, m) && EndRoom(h.blocks) && Coalesced(h.blocks) && (h.lfree == m + HDR || IsFree(h.blocks, h.lfree))
  }

  /** used_mem: headers and payloads of all blocks in use. */
  function UsedBytes(b: seq<Block>): int {
    if |b| < 2 then 0 else (if b[0].used then Extent(b, 0) else 0) + UsedBytes(b[1..])
  }

  /** A block in use at a with e bytes, header and payload. */
  ghost predicate Holds(b: seq<Block>, a: int, e: int) {
    exists i :: 0 <= i < |b| - 1 && b[i] == Block(a, true) && Extent(b, i) == e
  }

  // ---- the three edits of which the operations consist ----

  function Set(b: seq<Block>, i: nat, used: bool): seq<Block>
    requires i < |b|
  {
    b[i := Block(b[i].addr, used)]
  }

  /** A new free block at n, cut off block i. */
  function Cut(b: seq<Block>, i: nat, n: int): seq<Block>
    requires i < |b|
  {
    b[..i + 1] + [Block(n, false)] + b[i + 1..]
  }

  /** Block i absorbs the next one. */
  function Join(b: seq<Block>, i: nat): seq<Block>
    requires i + 1 < |b|
  {
    b[..i + 1] + b[i + 2..]
  }

  lemma SetTiled(b: seq<Block>, m: int, i: nat, used: bool)
    requires Tiled(b, m) && i + 1 < |b|
    ensures Tiled(Set(b, i, used), m)
    ensures forall j :: 0 <= j < |b| - 1 ==> Extent(Set(b, i, used), j) == Extent(b, j)
  {}

  lemma CutAt(b: seq<Block>, i: nat, n: int, j: nat)
    requires i < |b| && j <= |b|
    ensures |Cut(b, i, n)| == |b| + 1
    ensures Cut(b, i, n)[j] == if j <= i then b[j] else if j == i + 1 then Block(n, false) else b[j - 1]
  {}

  lemma JoinAt(b: seq<Block>, i: nat, j: nat)
    requires i + 1 < |b| && j < |b| - 1
    ensures |Join(b, i)| == |b| - 1
    ensures Join(b, i)[j] == if j <= i then b[j] else b[j + 1]
  {}

  lemma CutTiled(b: seq<Block>, m: int, i: nat, n: int)
    requires Tiled(b, m) && i + 1 < |b| && b[i].addr + HDR <= n && n + HDR <= b[i + 1].addr && n % ALIGN == 0
    ensures Tiled(Cut(b, i, n), m)
  {
    hide Cut;
    var t := Cut(b, i, n);
    CutAt(b, i, n, 0);
    CutAt(b, i, n, |b|);
    forall p, q | 0 <= p < q < |t|
      ensures t[p].addr + HDR <= t[q].addr
    {
      CutAt(b, i, n, p);
      CutAt(b, i, n, q);
      assert p <= i && i + 1 < q ==> b[p].addr + HDR <= b[q - 1].addr;
      assert p < i && q == i + 1 ==> b[p].addr + HDR <= b[i].addr;
      assert p == i + 1 && i + 2 < q ==> b[i + 1].addr + HDR <= b[q - 1].addr;
    }
    forall p | 0 <= p < |t|
      ensures t[p].addr % ALIGN == 0
    {
      CutAt(b, i, n, p);
    }
  }

  lemma JoinTiled(b: seq<Block>, m: int, i: nat)
    requires Tiled(b, m) && i + 2 < |b|
    ensures Tiled(Join(b, i), m)
  {
    var t := Join(b, i);
    forall j | 0 <= j < |t|
      ensures t[j] == if j <= i then b[j] else b[j + 1]
    {}
  }

  lemma SetEnd(b: seq<Block>, i: nat, used: bool)
    requires EndRoom(b) && i < |b|
    ensures EndRoom(Set(b, i, used))
  {}

  lemma CutEnd(b: seq<Block>, i: nat, n: int)
    requires EndRoom(b) && i + 1 < |b| && n + HDR + MINI <= b[i + 1].addr
    ensures EndRoom(Cut(b, i, n))
  {
    CutAt(b, i, n, |b|);
    CutAt(b, i, n, |b| - 1);
  }

  lemma JoinEnd(b: seq<Block>, m: int, i: nat)
    requires Tiled(b, m) && EndRoom(b) && i + 2 < |b|
    ensures EndRoom(Join(b, i))
  {
    JoinAt(b, i, |b| - 2);
    JoinAt(b, i, |b| - 3);
  }

  lemma SetHolds(b: seq<Block>, m: int, i: nat, used: bool, a: int, e: int)
    requires Tiled(b, m) && i + 1 < |b|
    ensures Holds(Set(b, i, used), a, e) <==>
            if a == b[i].addr then used && e == Extent(b, i) else Holds(b, a, e)
  {
    var t := Set(b, i, used);
    SetTiled(b, m, i, used);
    if Holds(t, a, e) {
      var j :| 0 <= j < |t| - 1 && t[j] == Block(a, true) && Extent(t, j) == e;
      if j != i { assert b[j] == t[j]; }
    }
    if used && a == b[i].addr { assert t[i] == Block(a, true); }
    if Holds(b, a, e) {
      var j :| 0 <= j < |b| - 1 && b[j] == Block(a, true) && Extent(b, j) == e;
      if j != i { assert t[j] == b[j]; }
    }
  }

  lemma AddrsDiffer(b: seq<Block>, m: int, i: nat, j: nat)
    requires Tiled(b, m) && i < |b| && j < |b|
    ensures b[i].addr == b[j].addr ==> i == j
  {}

  lemma CutHolds(b: seq<Block>, m: int, i: nat, n: int, a: int, e: int)
    requires Tiled(b, m) && i + 1 < |b|
    ensures Holds(Cut(b, i, n), a, e) <==>
            if a == b[i].addr then b[i].used && e == n - a else Holds(b, a, e)
  {
    hide Tiled, Cut;
    var t := Cut(b, i, n);
    CutAt(b, i, n, i);
    CutAt(b, i, n, i + 1);
    if Holds(t, a, e) {
      var j :| 0 <= j < |t| - 1 && t[j] == Block(a, true) && Extent(t, j) == e;
      var k := if j <= i then j else j - 1;
      CutAt(b, i, n, j);
      CutAt(b, i, n, j + 1);
      AddrsDiffer(b, m, i, k);
      if j != i { assert b[k] == Block(a, true) && Extent(b, k) == e; }
    }
    if b[i].used && a == b[i].addr && e == n - a { assert t[i] == Block(a, true) && Extent(t, i) == e; }
    if Holds(b, a, e) && a != b[i].addr {
      var j :| 0 <= j < |b| - 1 && b[j] == Block(a, true) && Extent(b, j) == e;
      var k := if j <= i then j else j + 1;
      CutAt(b, i, n, k);
      CutAt(b, i, n, k + 1);
      assert t[k] == Block(a, true) && Extent(t, k) == e;
    }
  }

  /** Joining free blocks changes nothing for those in use. */
  lemma JoinHolds(b: seq<Block>, i: nat, a: int, e: int)
    requires i + 2 < |b| && !b[i].used && !b[i + 1].used
    ensures Holds(Join(b, i), a, e) <==> Holds(b, a, e)
  {
    hide Join;
    var t := Join(b, i);
    JoinAt(b, i, 0);
    if Holds(t, a, e) {
      var j :| 0 <= j < |t| - 1 && t[j] == Block(a, true) && Extent(t, j) == e;
      var k := if j <= i then j else j + 1;
      JoinAt(b, i, j);
      JoinAt(b, i, j + 1);
      assert b[k] == Block(a, true) && Extent(b, k) == e;
    }
    if Holds(b, a, e) {
      var j :| 0 <= j < |b| - 1 && b[j] == Block(a, true) && Extent(b, j) == e;
      var k := if j <= i then j else j - 1;
      JoinAt(b, i, k);
      JoinAt(b, i, k + 1);
      assert t[k] == Block(a, true) && Extent(t, k) == e;
    }
  }

  lemma {:induction false} SetUsedBytes(b: seq<Block>, i: nat, used: bool)
    requires i + 1 < |b|
    ensures UsedBytes(Set(b, i, used)) == UsedBytes(b) + (if used then Extent(b, i) else 0) - (if b[i].used then Extent(b, i) else 0)
  {
    var t := Set(b, i, used);
    if i == 0 {
      assert t[1..] == b[1..];
    } else {
      SetUsedBytes(b[1..], i - 1, used);
      assert t[1..] == Set(b[1..], i - 1, used);
    }
  }

  lemma {:induction false} CutUsedBytes(b: seq<Block>, i: nat, n: int)
    requires i + 1 < |b|
    ensures UsedBytes(Cut(b, i, n)) == UsedBytes(b) - if b[i].used then b[i + 1].addr - n else 0
  {
    var t := Cut(b, i, n);
    if i == 0 {
      assert t[1..] == [Block(n, false)] + b[1..];
      assert t[1..][1..] == b[1..];
    } else {
      CutUsedBytes(b[1..], i - 1, n);
      assert t[1..] == Cut(b[1..], i - 1, n);
    }
  }

  lemma {:induction false} JoinUsedBytes(b: seq<Block>, i: nat)
    requires i + 2 < |b| && !b[i].used && !b[i + 1].used
    ensures UsedBytes(Join(b, i)) == UsedBytes(b)
  {
    var t := Join(b, i);
    if i == 0 {
      assert t[1..] == b[1..][1..];
    } else {
      JoinUsedBytes(b[1..], i - 1);
      assert t[1..] == Join(b[1..], i - 1);
    }
  }

  // ---- plug_holes ----

  datatype Plugged = Plugged(blocks: seq<Block>, lfree: int)

  /** Block i absorbs a free next block. */
  function Forward(b: seq<Block>, lfree: int, i: nat): Plugged
    requires i + 1 < |b|
  {
    if i + 2 < |b| && !b[i + 1].used then Plugged(Join(b, i), if lfree == b[i + 1].addr then b[i].addr else lfree)
    else Plugged(b, lfree)
  }

  /** A free previous block absorbs block i. */
  function Backward(b: seq<Block>, lfree: int, i: nat): Plugged
    requires i + 1 < |b|
  {
    if i > 0 && !b[i - 1].used then Plugged(Join(b, i - 1), if lfree == b[i].addr then b[i - 1].addr else lfree)
    else Plugged(b, lfree)
  }

  function Plug(b: seq<Block>, lfree: int, i: nat): Plugged
    requires i + 1 < |b|
  {
    var p := Forward(b, lfree, i);
    Backward(p.blocks, p.lfree, i)
  }

  // ---- the operations ----

  /** The first block from k on that is free and large enough and begins below the limit. */
  function FirstFit(b: seq<Block>, k: nat, size: int, limit: int): (r: nat)
    requires k < |b|
    ensures r == |b| || (k <= r < |b| - 1 && b[r].addr < limit && !b[r].used && Extent(b, r) >= HDR + size)
    decreases |b| - k
  {
    if b[k].addr >= limit || k + 1 == |b| then |b|
    else if !b[k].used && Extent(b, k) >= HDR + size then k
    else FirstFit(b, k + 1, size, limit)
  }

  /** The first free block from k on, or heap_end. */
  function NextFree(b: seq<Block>, k: nat): (r: nat)
    requires k < |b|
    ensures k <= r < |b| && (r < |b| - 1 ==> !b[r].used) && forall i :: k <= i < r ==> b[i].used
    decreases |b| - k
  {
    if k + 1 == |b| || !b[k].used then k else NextFree(b, k + 1)
  }

  function Needed(n: nat): nat { if Up(n) < MINI then MINI else Up(n) }

  predicate Splits(b: seq<Block>, k: nat, size: int)
    requires k + 1 < |b|
  {
    Extent(b, k) >= HDR + size + HDR + MINI
  }

  /** Block k is handed out, the tail behind size bytes cut off if it is large enough. */
  function Take(h: Heap, k: nat, size: nat): Heap
    requires k + 1 < |h.blocks|
  {
    var a := h.blocks[k].addr;
    var b := Set(if Splits(h.blocks, k, size) then Cut(h.blocks, k, a + HDR + size) else h.blocks, k, true);
    Heap(b, if a == h.lfree then b[NextFree(b, k)].addr else h.lfree, Max(h.peak, UsedBytes(b)))
  }

  function Malloc(h: Heap, m: int, n: nat): (Heap, int)
    requires h.lfree in Addrs(h.blocks)
  {
    var size := Needed(n);
    if n == 0 || Up(n) > m then (h, NULL)
    else
      var k := FirstFit(h.blocks, Find(h.blocks, h.lfree), size, m - size);
      if k == |h.blocks| then (h, NULL) else (Take(h, k, size), h.blocks[k].addr + HDR)
  }

  /** Block i is given back. */
  function Release(h: Heap, i: nat): Heap
    requires i + 1 < |h.blocks|
  {
    var a := h.blocks[i].addr;
    var p := Plug(Set(h.blocks, i, false), if a < h.lfree then a else h.lfree, i);
    Heap(p.blocks, p.lfree, h.peak)
  }

  /** The tail of block i behind size bytes is given back. */
  function Shrink(h: Heap, i: nat, size: nat): Heap
    requires i + 1 < |h.blocks|
  {
    var p := Plug(Cut(h.blocks, i, h.blocks[i].addr + HDR + size), h.lfree, i + 1);
    Heap(p.blocks, p.lfree, h.peak)
  }

  predicate Shrinks(b: seq<Block>, i: nat, size: int)
    requires i + 1 < |b|
  {
    Extent(b, i) > size + HDR + MINI + HDR
  }

  /** Block i is to have room for n bytes; when it cannot stay, allocate, copy and free. */
  function Resize(h: Heap, m: int, i: nat, n: nat): (Heap, int)
    requires i + 1 < |h.blocks| && h.lfree in Addrs(h.blocks)
  {
    var a, size := h.blocks[i].addr, Up(n);
    if size > m then (h, NULL)
    else if Extent(h.blocks, i) == HDR + size then (h, a + HDR)
    else if Shrinks(h.blocks, i, size) then (Shrink(h, i, size), a + HDR)
    else
      var (h', moved) := Malloc(h, m, size);
      if moved == NULL then (h', NULL) else (ReleaseAt(h', a), moved)
  }

  function ReleaseAt(h: Heap, a: int): Heap {
    if a in Addrs(h.blocks) && Find(h.blocks, a) + 1 < |h.blocks| then Release(h, Find(h.blocks, a)) else h
  }
}
