/** What clients of the memory heap see: the live payloads, over single operations and runs. */
module MemHeapRuns {
  import opened Blocks
  import opened MemHeapModel
  import opened Rings

  datatype Payload = None | Some(size: int)

  /** Payload size of the block in use whose header is at a; the last block is the tailer. */
  function Live(b: seq<Block>, a: int): Payload {
    if |b| < 2 then None
    else if b[0] == Block(a, true) then Some(Size(b, 0))
    else Live(b[1..], a)
  }

  function Or(x: Payload, y: Payload): Payload { if x == None then y else x }

  lemma {:induction false} LiveConcat(x: seq<Block>, m: Block, m': Block, y: seq<Block>, a: int)
    requires m.addr == m'.addr
    ensures Live(x + [m] + y, a) == Or(Live(x + [m'], a), Live([m] + y, a))
  {
    if x == [] {
      assert x + [m] + y == [m] + y && x + [m'] == [m'];
    } else {
      var s, t := x + [m] + y, x + [m'];
      assert s[1..] == x[1..] + [m] + y && t[1..] == x[1..] + [m'];
      LiveConcat(x[1..], m, m', y, a);
      assert s[1].addr == t[1].addr;
    }
  }

  lemma LiveThree(x: seq<Block>, first: Block, mid: seq<Block>, m: Block, y: seq<Block>, a: int)
    requires |mid| > 0 && mid[0].addr == first.addr
    ensures Live(x + mid + [m] + y, a) == Or(Live(x + [first], a), Or(Live(mid + [m], a), Live([m] + y, a)))
  {
    LiveConcat(x + mid, m, m, y, a);
    assert x + mid + [m] == x + [mid[0]] + (mid[1..] + [m]);
    LiveConcat(x, mid[0], first, mid[1..] + [m], a);
    assert [mid[0]] + (mid[1..] + [m]) == mid + [m];
  }

  lemma {:induction false} LiveIsBlock(b: seq<Block>, a: int)
    requires Live(b, a) != None
    ensures exists i :: 0 <= i < |b| - 1 && b[i] == Block(a, true) && Live(b, a) == Some(Size(b, i))
  {
    if b[0] != Block(a, true) {
      LiveIsBlock(b[1..], a);
      var i :| 0 <= i < |b[1..]| - 1 && b[1..][i] == Block(a, true) && Live(b[1..], a) == Some(Size(b[1..], i));
      assert b[i + 1] == Block(a, true) && Size(b, i + 1) == Size(b[1..], i);
    }
  }

  lemma {:induction false} BlockIsLive(b: seq<Block>, pool: int, i: nat)
    requires Tiled(b, pool) && i + 1 < |b| && b[i].used
    ensures Live(b, b[i].addr) == Some(Size(b, i))
  {
    BlockIsLiveFrom(b, 0, i);
  }

  lemma {:induction false} BlockIsLiveFrom(b: seq<Block>, k: nat, i: nat)
    requires forall p, q :: 0 <= p < q < |b| ==> b[p].addr + HDR <= b[q].addr
    requires k <= i && i + 1 < |b| && b[i].used
    ensures Live(b[k..], b[i].addr) == Some(Size(b, i))
    decreases i - k
  {
    assert b[k..][0] == b[k] && b[k..][1] == b[k + 1];
    if k < i {
      BlockIsLiveFrom(b, k + 1, i);
      assert b[k..][1..] == b[k + 1..];
      assert b[k].addr + HDR <= b[i].addr;
    }
  }

  /** The part of the pool in front of block i and the part from block j on. */
  function Before(b: seq<Block>, i: nat, a: int): Payload
    requires i < |b|
  {
    Live(b[..i] + [b[i]], a)
  }

  function Behind(b: seq<Block>, j: nat, a: int): Payload
    requires j < |b|
  {
    Live([b[j]] + b[j + 1..], a)
  }

  lemma BeforeIsBefore(b: seq<Block>, pool: int, i: nat, a: int)
    requires Tiled(b, pool) && i < |b| && Before(b, i, a) != None
    ensures a < b[i].addr
  {
    var s := b[..i] + [b[i]];
    LiveIsBlock(s, a);
    var q :| 0 <= q < |s| - 1 && s[q] == Block(a, true);
    assert b[q] == s[q];
  }

  lemma BehindIsBehind(b: seq<Block>, pool: int, j: nat, a: int)
    requires Tiled(b, pool) && j < |b| && Behind(b, j, a) != None
    ensures b[j].addr <= a
  {
    var s := [b[j]] + b[j + 1..];
    LiveIsBlock(s, a);
    var q :| 0 <= q < |s| - 1 && s[q] == Block(a, true);
    assert b[j + q] == s[q];
  }

  lemma LiveByParts(x: seq<Block>, first: Block, mid: seq<Block>, m: Block, y: seq<Block>, b: seq<Block>, a: int)
    requires |mid| > 0 && mid[0].addr == first.addr && b == x + mid + [m] + y
    ensures Live(b, a) == Or(Live(x + [first], a), Or(Live(mid + [m], a), Live([m] + y, a)))
  {
    LiveThree(x, first, mid, m, y, a);
  }

  lemma SpliceLive(b: seq<Block>, pool: int, i: nat, j: nat, mid: seq<Block>, a: int)
    requires Tiled(b, pool) && Fits(b, i, j, mid)
    ensures Live(b, a) == Or(Before(b, i, a), Or(Live(b[i..j] + [b[j]], a), Behind(b, j, a)))
    ensures Live(Splice(b, i, j, mid), a) == Or(Before(b, i, a), Or(Live(mid + [b[j]], a), Behind(b, j, a)))
  {
    var x, y := b[..i], b[j + 1..];
    SpliceByParts(b, i, j, mid);
    LiveByParts(x, b[i], b[i..j], b[j], y, b, a);
    LiveByParts(x, b[i], mid, b[j], y, Splice(b, i, j, mid), a);
  }

  /** A splice whose middle has one live payload at most changes nothing else. */
  lemma SpliceLiveAt(b: seq<Block>, pool: int, i: nat, j: nat, mid: seq<Block>, at: int, was: Payload, now: Payload, a: int)
    requires Tiled(b, pool) && Fits(b, i, j, mid) && b[i].addr <= at < b[j].addr
    requires forall x :: Live(b[i..j] + [b[j]], x) == if x == at then was else None
    requires forall x :: Live(mid + [b[j]], x) == if x == at then now else None
    ensures Live(Splice(b, i, j, mid), a) == if a == at then now else Live(b, a)
    ensures Live(b, at) == was
  {
    SpliceLive(b, pool, i, j, mid, a);
    SpliceLive(b, pool, i, j, mid, at);
    if Before(b, i, at) != None { BeforeIsBefore(b, pool, i, at); }
    if Behind(b, j, at) != None { BehindIsBehind(b, pool, j, at); }
  }

  lemma LiveTwo(x: Block, y: Block, a: int)
    ensures Live([x] + [y], a) == if x == Block(a, true) then Some(y.addr - x.addr - HDR) else None
  {
    assert Live(([x] + [y])[1..], a) == None;
  }

  lemma LiveThreeBlocks(x: Block, y: Block, z: Block, a: int)
    ensures Live([x, y] + [z], a) == Or(Live([x] + [y], a), Live([y] + [z], a))
  {
    assert ([x, y] + [z])[1..] == [y] + [z];
    LiveTwo(x, y, a);
  }

  lemma LiveFour(w: Block, x: Block, y: Block, z: Block, a: int)
    ensures Live([w, x, y] + [z], a) == Or(Live([w] + [x], a), Or(Live([x] + [y], a), Live([y] + [z], a)))
  {
    assert ([w, x, y] + [z])[1..] == [x, y] + [z];
    LiveThreeBlocks(x, y, z, a);
    LiveTwo(w, x, a);
  }

  lemma OneBlockLive(x: Block, z: Block)
    ensures forall a :: Live([x] + [z], a) == if a == x.addr && x.used then Some(z.addr - x.addr - HDR) else None
  {
    forall a { LiveTwo(x, z, a); }
  }

  lemma UsedThenFree(x: Block, y: Block, z: Block)
    requires !y.used
    ensures forall a :: Live([x, y] + [z], a) == if a == x.addr && x.used then Some(y.addr - x.addr - HDR) else None
  {
    forall a
      ensures Live([x, y] + [z], a) == if a == x.addr && x.used then Some(y.addr - x.addr - HDR) else None
    {
      LiveThreeBlocks(x, y, z, a);
      LiveTwo(x, y, a);
      LiveTwo(y, z, a);
    }
  }

  lemma FreeThenUsed(x: Block, y: Block, z: Block)
    requires !x.used && y.used
    ensures forall a :: Live([x, y] + [z], a) == if a == y.addr then Some(z.addr - y.addr - HDR) else None
  {
    forall a
      ensures Live([x, y] + [z], a) == if a == y.addr then Some(z.addr - y.addr - HDR) else None
    {
      LiveThreeBlocks(x, y, z, a);
      LiveTwo(x, y, a);
      LiveTwo(y, z, a);
    }
  }

  lemma FreeUsedFree(w: Block, x: Block, y: Block, z: Block)
    requires !w.used && x.used && !y.used
    ensures forall a :: Live([w, x, y] + [z], a) == if a == x.addr then Some(y.addr - x.addr - HDR) else None
  {
    forall a
      ensures Live([w, x, y] + [z], a) == if a == x.addr then Some(y.addr - x.addr - HDR) else None
    {
      LiveFour(w, x, y, z, a);
      LiveTwo(w, x, a);
      LiveTwo(x, y, a);
      LiveTwo(y, z, a);
    }
  }

  // ---- single operations ----

  lemma ListedUnused(h: Heap, k: nat, i: nat)
    requires Listed(h) && k < |h.free| && i < |h.blocks| && h.free[k] == h.blocks[i].addr
    ensures !h.blocks[i].used
  {}

  lemma TakeLive(h: Heap, pool: int, k: nat, i: nat, size: int, a: int)
    requires Good(h, pool) && k < |h.free| && i + 1 < |h.blocks| && h.free[k] == h.blocks[i].addr
    requires 0 <= size <= Size(h.blocks, i) && size % ALIGN == 0
    ensures Live(h.blocks, h.blocks[i].addr) == None
    ensures Live(Take(h, k, i, size).blocks, a) ==
      if a == h.blocks[i].addr then Some(if Splits(h.blocks, i, size) then size else Size(h.blocks, i))
      else Live(h.blocks, a)
  {
    hide Coalesced, Listed, Live;
    var b, at := h.blocks, h.blocks[i].addr;
    var x, y := Block(at, true), Block(at + HDR + size, false);
    ListedUnused(h, k, i);
    assert b[i..i + 1] == [b[i]];
    OneBlockLive(b[i], b[i + 1]);
    if Splits(b, i, size) {
      UsedThenFree(x, y, b[i + 1]);
      TailFits(b, pool, i, x, y.addr);
      SpliceLiveAt(b, pool, i, i + 1, [x, y], at, None, Some(size), a);
    } else {
      OneBlockLive(x, b[i + 1]);
      SpliceLiveAt(b, pool, i, i + 1, [x], at, None, Some(Size(b, i)), a);
    }
  }

  lemma ReleaseLocal(b: seq<Block>, first: nat, i: nat, end: nat)
    requires first <= i < end < |b| && i - first <= 1 && end - i <= 2 && b[i].used
    requires (first < i ==> !b[first].used) && (end > i + 1 ==> !b[i + 1].used)
    ensures forall a :: Live(b[first..end] + [b[end]], a) == if a == b[i].addr then Some(Size(b, i)) else None
  {
    if end == first + 1 {
      assert b[first..end] == [b[i]];
      OneBlockLive(b[i], b[end]);
    } else if end == first + 3 {
      assert b[first..end] == [b[first], b[i], b[i + 1]];
      FreeUsedFree(b[first], b[i], b[i + 1], b[end]);
    } else if first < i {
      assert b[first..end] == [b[first], b[i]];
      FreeThenUsed(b[first], b[i], b[end]);
    } else {
      assert b[first..end] == [b[i], b[i + 1]];
      UsedThenFree(b[i], b[i + 1], b[end]);
    }
  }

  lemma ReleaseLive(h: Heap, pool: int, i: nat, a: int)
    requires Good(h, pool) && i + 1 < |h.blocks| && h.blocks[i].used
    ensures Live(h.blocks, h.blocks[i].addr) == Some(Size(h.blocks, i))
    ensures Live(Release(h, i).blocks, a) == if a == h.blocks[i].addr then None else Live(h.blocks, a)
  {
    var b := h.blocks;
    var left, right := MergesLeft(b, i), MergesRight(b, i);
    var first, end := if left then i - 1 else i, if right then i + 2 else i + 1;
    ReleaseFits(h, pool, i);
    var x := Block(b[first].addr, false);
    ReleaseLocal(b, first, i, end);
    OneBlockLive(x, b[end]);
    assert b[first].addr <= b[i].addr < b[end].addr;
    SpliceLiveAt(b, pool, first, end, [x], b[i].addr, Some(Size(b, i)), None, a);
  }

  lemma MoveBorderLive(h: Heap, pool: int, i: nat, size: nat, a: int)
    requires Good(h, pool) && i + 2 < |h.blocks| && h.blocks[i].used && !h.blocks[i + 1].used
    requires size % ALIGN == 0 && h.blocks[i].addr + HDR + size + HDR <= h.blocks[i + 2].addr
    ensures Live(MoveBorder(h, i, size).blocks, a) == if a == h.blocks[i].addr then Some(size) else Live(h.blocks, a)
  {
    var b, y := h.blocks, Block(h.blocks[i].addr + HDR + size, false);
    BorderFits(b, pool, i, y.addr);
    assert b[i..i + 2] == [b[i], b[i + 1]];
    UsedThenFree(b[i], b[i + 1], b[i + 2]);
    UsedThenFree(b[i], y, b[i + 2]);
    SpliceLiveAt(b, pool, i, i + 2, [b[i], y], b[i].addr, Some(Size(b, i)), Some(size), a);
  }

  lemma CutTailLive(h: Heap, pool: int, i: nat, size: nat, a: int)
    requires Good(h, pool) && i + 1 < |h.blocks| && h.blocks[i].used
    requires size % ALIGN == 0 && size + HDR <= Size(h.blocks, i)
    ensures Live(CutTail(h, i, size).blocks, a) == if a == h.blocks[i].addr then Some(size) else Live(h.blocks, a)
  {
    hide Coalesced, Listed, Live;
    var b, y := h.blocks, Block(h.blocks[i].addr + HDR + size, false);
    assert b[i..i + 1] == [b[i]];
    OneBlockLive(b[i], b[i + 1]);
    UsedThenFree(b[i], y, b[i + 1]);
    TailFits(b, pool, i, b[i], y.addr);
    SpliceLiveAt(b, pool, i, i + 1, [b[i], y], b[i].addr, Some(Size(b, i)), Some(size), a);
  }

  // ---- allocation ----

  /** No free block can hold size bytes. */
  ghost predicate NoneFits(b: seq<Block>, size: int) {
    forall i :: 0 <= i < |b| - 1 && !b[i].used ==> Size(b, i) < size
  }

  /** The block behind entry k of the free list, when there is such an entry. */
  ghost predicate EntryFits(h: Heap, k: nat, size: int) {
    k < |h.free| && h.free[k] in Addrs(h.blocks)
    && var i := Find(h.blocks, h.free[k]); (i + 1 < |h.blocks| && !h.blocks[i].used && Size(h.blocks, i) >= size)
  }

  lemma FirstFitBlock(h: Heap, pool: int, size: nat)
    requires Good(h, pool)
    ensures var k := FirstFit(h, size, 0); (if k == |h.free| then NoneFits(h.blocks, size) else EntryFits(h, k, size))
  {
    var k := FirstFit(h, size, 0);
    if k == |h.free| {
      forall i | 0 <= i < |h.blocks| - 1 && !h.blocks[i].used
        ensures Size(h.blocks, i) < size
      {
        var j := IndexOf(h.free, h.blocks[i].addr);
        FindUnique(h.blocks, pool, i);
        assert SizeAt(h.blocks, h.free[j]) < size;
      }
    } else {
      FreeEntry(h, pool, k);
    }
  }

  lemma FreeEntry(h: Heap, pool: int, k: nat)
    requires Good(h, pool) && k < |h.free|
    ensures h.free[k] in Addrs(h.blocks)
    ensures Find(h.blocks, h.free[k]) + 1 < |h.blocks| && !h.blocks[Find(h.blocks, h.free[k])].used
  {
    var i := Find(h.blocks, h.free[k]);
    assert h.blocks[i].addr in h.free;
  }

  /** Header address a is that of a new payload with room for size bytes and little more. */
  ghost predicate Allocated(b: seq<Block>, b': seq<Block>, a: int, size: nat) {
    && a % ALIGN == 0 && Live(b, a) == None
    && Live(b', a) != None && size <= Live(b', a).size < size + HDR + MINI
    && forall x :: x != a ==> Live(b', x) == Live(b, x)
  }

  lemma TakeSound(h: Heap, pool: int, k: nat, size: nat)
    requires Good(h, pool) && EntryFits(h, k, size) && size % ALIGN == 0
    ensures var h' := Take(h, k, Find(h.blocks, h.free[k]), size); (Good(h', pool) && Allocated(h.blocks, h'.blocks, h.free[k], size))
    ensures !NoneFits(h.blocks, size)
  {
    var i := Find(h.blocks, h.free[k]);
    TakeGood(h, pool, k, i, size);
    TakeLive(h, pool, k, i, size, h.free[k]);
    forall a | a != h.free[k]
      ensures Live(Take(h, k, i, size).blocks, a) == Live(h.blocks, a)
    {
      TakeLive(h, pool, k, i, size, a);
    }
  }

  lemma HeaderInPool(b: seq<Block>, pool: int, i: nat)
    requires Tiled(b, pool) && i < |b|
    ensures 0 <= b[i].addr <= pool - HDR
  {
    assert i > 0 ==> b[0].addr + HDR <= b[i].addr;
    assert i < |b| - 1 ==> b[i].addr + HDR <= b[|b| - 1].addr;
  }

  /** rt_memheap_alloc: when it fails nothing changes; it fails exactly when the request is
      not below the free bytes or no free block is large enough; otherwise it hands out a
      block that was free and changes no other payload. */
  lemma AllocSound(h: Heap, pool: int, request: nat)
    requires Good(h, pool)
    ensures Good(Alloc(h, request).0, pool)
    ensures Alloc(h, request).1 == NULL <==> Rounded(request) >= FreeBytes(h.blocks) || NoneFits(h.blocks, Rounded(request))
    ensures Alloc(h, request).1 == NULL ==> Alloc(h, request).0 == h
    ensures Alloc(h, request).1 != NULL ==>
      Allocated(h.blocks, Alloc(h, request).0.blocks, Alloc(h, request).1 - HDR, Rounded(request))
  {
    hide Tiled, Coalesced, Listed, Live, NoneFits, Take, FreeBytes, FirstFit, Allocated, Rounded;
    var size := Rounded(request);
    var k := FirstFit(h, size, 0);
    FirstFitBlock(h, pool, size);
    if size < FreeBytes(h.blocks) && k < |h.free| {
      TakeSound(h, pool, k, size);
      HeaderInPool(h.blocks, pool, Find(h.blocks, h.free[k]));
    }
  }

  // ---- change of size ----

  lemma LiveBlock(h: Heap, pool: int, a: int)
    requires Good(h, pool) && Live(h.blocks, a) != None
    ensures a in Addrs(h.blocks)
    ensures Find(h.blocks, a) + 1 < |h.blocks| && h.blocks[Find(h.blocks, a)] == Block(a, true)
    ensures Live(h.blocks, a) == Some(Size(h.blocks, Find(h.blocks, a)))
  {
    LiveIsBlock(h.blocks, a);
    var i :| 0 <= i < |h.blocks| - 1 && h.blocks[i] == Block(a, true) && Live(h.blocks, a) == Some(Size(h.blocks, i));
    FindUnique(h.blocks, pool, i);
  }

  /** rt_memheap_free. */
  lemma ReleaseSound(h: Heap, pool: int, a: int)
    requires Good(h, pool) && Live(h.blocks, a) != None
    ensures Good(ReleaseAt(h, a), pool)
    ensures forall x :: Live(ReleaseAt(h, a).blocks, x) == if x == a then None else Live(h.blocks, x)
  {
    LiveBlock(h, pool, a);
    var i := Find(h.blocks, a);
    ReleaseGood(h, pool, i);
    forall x
      ensures Live(ReleaseAt(h, a).blocks, x) == if x == a then None else Live(h.blocks, x)
    {
      ReleaseLive(h, pool, i, x);
    }
  }

  lemma MoveBorderSound(h: Heap, pool: int, i: nat, size: nat)
    requires Good(h, pool) && i + 2 < |h.blocks| && h.blocks[i].used && !h.blocks[i + 1].used
    requires size % ALIGN == 0 && h.blocks[i].addr + HDR + size + HDR <= h.blocks[i + 2].addr
    ensures Good(MoveBorder(h, i, size), pool)
    ensures forall x :: Live(MoveBorder(h, i, size).blocks, x) == if x == h.blocks[i].addr then Some(size) else Live(h.blocks, x)
  {
    MoveBorderGood(h, pool, i, size);
    forall x
      ensures Live(MoveBorder(h, i, size).blocks, x) == if x == h.blocks[i].addr then Some(size) else Live(h.blocks, x)
    {
      MoveBorderLive(h, pool, i, size, x);
    }
  }

  lemma CutTailSound(h: Heap, pool: int, i: nat, size: nat)
    requires Good(h, pool) && i + 1 < |h.blocks| && h.blocks[i].used && h.blocks[i + 1].used
    requires size % ALIGN == 0 && size + HDR <= Size(h.blocks, i)
    ensures Good(CutTail(h, i, size), pool)
    ensures forall x :: Live(CutTail(h, i, size).blocks, x) == if x == h.blocks[i].addr then Some(size) else Live(h.blocks, x)
  {
    CutTailGood(h, pool, i, size);
    forall x
      ensures Live(CutTail(h, i, size).blocks, x) == if x == h.blocks[i].addr then Some(size) else Live(h.blocks, x)
    {
      CutTailLive(h, pool, i, size, x);
    }
  }

  /** The block at `old'` became the block at `now` with room for the request; nothing else changed. */
  ghost predicate Resized(b: seq<Block>, b': seq<Block>, was: int, now: int, request: nat) {
    && Live(b', now) != None && Live(b', now).size >= request
    && (now != was ==> Live(b, now) == None && Live(b', was) == None)
    && forall a :: a != was && a != now ==> Live(b', a) == Live(b, a)
  }

  /** The moving case of rt_memheap_realloc: allocate, then free the old block. */
  lemma MoveSound(h: Heap, pool: int, a: int, size: nat)
    requires Good(h, pool) && Live(h.blocks, a) != None
    ensures var (h', moved) := Alloc(h, size);
      moved != NULL ==> Good(ReleaseAt(h', a), pool) && Resized(h.blocks, ReleaseAt(h', a).blocks, a, moved - HDR, size)
  {
    AllocSound(h, pool, size);
    var (h', moved) := Alloc(h, size);
    if moved != NULL {
      assert moved - HDR != a;
      ReleaseSound(h', pool, a);
    }
  }

  /** The free right neighbour makes up for what block i lacks. */
  predicate RoomBehind(b: seq<Block>, i: nat, size: int)
    requires i + 1 < |b|
  {
    i + 2 < |b| && !b[i + 1].used && b[i + 2].addr - b[i].addr - 2 * HDR > size + MINI
  }

  /** rt_memheap_realloc stays in place exactly if the block is large enough or its right neighbour makes up the room, and
      fails exactly if neither is so and an allocation fails. */
  lemma ResizePlace(h: Heap, pool: int, i: nat, request: nat)
    requires Good(h, pool) && i + 1 < |h.blocks| && h.blocks[i].used
    ensures var b, size, (h', ptr) := h.blocks, Rounded(request), Resize(h, i, request);
      && (ptr == b[i].addr + HDR <==> size <= Size(b, i) || RoomBehind(b, i, size))
      && (ptr == NULL <==> Size(b, i) < size && !RoomBehind(b, i, size) && (size >= FreeBytes(b) || NoneFits(b, size)))
      && (ptr != NULL && ptr != b[i].addr + HDR ==>
            Live(h'.blocks, ptr - HDR) != None && size <= Live(h'.blocks, ptr - HDR).size < size + HDR + MINI)
  {
    hide CutTail, MoveBorder, Alloc, ReleaseAt, Live, Listed, Coalesced, Rounded, FreeBytes, NoneFits;
    var b, size, a := h.blocks, Rounded(request), h.blocks[i].addr;
    HeaderInPool(b, pool, i);
    BlockIsLive(b, pool, i);
    if size > Size(b, i) && !RoomBehind(b, i, size) {
      RoundedTwice(request);
      AllocSound(h, pool, size);
      var (h', moved) := Alloc(h, size);
      if moved != NULL {
        assert moved - HDR != a;
        ReleaseSound(h', pool, a);
      }
    }
  }

  /** The bytes a block has after it stayed in place: the rounded request, or all that it had, if it had at least as many
      but too few more for a block of their own. */
  function SizeAfter(was: int, size: int): int { if size <= was <= size + HDR + MINI then was else size }

  /** A block that stays has room for the request and gives back what is left over; the free bytes change by the difference,
      and when a new header is cut in front of a used block, by that. */
  lemma ResizeBytes(h: Heap, pool: int, i: nat, request: nat)
    requires Good(h, pool) && i + 1 < |h.blocks| && h.blocks[i].used
    requires Resize(h, i, request).1 == h.blocks[i].addr + HDR
    ensures var b, size, b' := h.blocks, Rounded(request), Resize(h, i, request).0.blocks;
      && Live(b', b[i].addr) == Some(SizeAfter(Size(b, i), size))
      && FreeBytes(b') == FreeBytes(b) + Size(b, i) - SizeAfter(Size(b, i), size)
           - if SizeAfter(Size(b, i), size) < Size(b, i) && b[i + 1].used then HDR else 0
  {
    hide CutTail, MoveBorder, Alloc, ReleaseAt, Live, Listed, Coalesced, Rounded, FreeBytes, NoneFits;
    var b, size := h.blocks, Rounded(request);
    ResizePlace(h, pool, i, request);
    BlockIsLive(b, pool, i);
    if size > Size(b, i) {
      MoveBorderSound(h, pool, i, size);
      MoveBorderFreeBytes(h, pool, i, size);
    } else if size + HDR + MINI < Size(b, i) {
      if i + 2 < |b| && !b[i + 1].used {
        assert b[i + 1].addr + HDR <= b[i + 2].addr;
        MoveBorderSound(h, pool, i, size);
        MoveBorderFreeBytes(h, pool, i, size);
      } else {
        assert b[i + 1].used;
        CutTailSound(h, pool, i, size);
        CutTailFreeBytes(h, pool, i, size);
      }
    }
  }

  /** What rt_memheap_realloc makes of a live block, in the cases of its result: null leaves everything as it was, a block
      that stays gives back what is left over, and one that moves is freed. */
  ghost predicate Answers(h: Heap, h': Heap, i: nat, size: nat, ptr: int)
    requires i + 1 < |h.blocks|
  {
    var b, b', a, was := h.blocks, h'.blocks, h.blocks[i].addr, Size(h.blocks, i);
    if size <= was || RoomBehind(b, i, size) then
      && ptr == a + HDR && Live(b', a) == Some(SizeAfter(was, size))
      && FreeBytes(b') == FreeBytes(b) + was - SizeAfter(was, size) - if SizeAfter(was, size) < was && b[i + 1].used then HDR else 0
    else if size >= FreeBytes(b) || NoneFits(b, size) then ptr == NULL && h' == h
    else
      && ptr != NULL && ptr != a + HDR && Live(b', ptr - HDR) != None && size <= Live(b', ptr - HDR).size < size + HDR + MINI
  }

  /** rt_memheap_realloc on a live block. */
  lemma ResizeSound(h: Heap, pool: int, i: nat, request: nat)
    requires Good(h, pool) && i + 1 < |h.blocks| && h.blocks[i].used
    ensures var (h', ptr) := Resize(h, i, request);
      && Good(h', pool)
      && (ptr == NULL ==> h' == h)
      && (ptr != NULL ==> Resized(h.blocks, h'.blocks, h.blocks[i].addr, ptr - HDR, Rounded(request)))
      && Answers(h, h', i, Rounded(request), ptr)
  {
    hide CutTail, MoveBorder, Alloc, ReleaseAt, Live, Listed, Coalesced, Rounded, FreeBytes, NoneFits;
    var b, size, a := h.blocks, Rounded(request), h.blocks[i].addr;
    BlockIsLive(b, pool, i);
    ResizePlace(h, pool, i, request);
    if Resize(h, i, request).1 == a + HDR { ResizeBytes(h, pool, i, request); }
    if size > Size(b, i) {
      if GrowsInPlace(b, i, size) {
        MoveBorderSound(h, pool, i, size);
      } else {
        MoveSound(h, pool, a, size);
      }
    } else if size + HDR + MINI < Size(b, i) {
      if i + 2 < |b| && !b[i + 1].used {
        assert b[i + 1].addr + HDR <= b[i + 2].addr;
        MoveBorderSound(h, pool, i, size);
      } else {
        assert b[i + 1].used;
        CutTailSound(h, pool, i, size);
      }
    }
  }

  // ---- runs ----

  datatype Op = AllocOp(request: nat) | ReallocOp(ptr: int, request: nat) | FreeOp(ptr: int)

  function Free(h: Heap, ptr: int): Heap { if ptr == NULL then h else ReleaseAt(h, ptr - HDR) }

  function Realloc(h: Heap, ptr: int, request: nat): (Heap, int) {
    if request == 0 then (Free(h, ptr), NULL)
    else if ptr == NULL then Alloc(h, Rounded(request))
    else if ptr - HDR in Addrs(h.blocks) && Find(h.blocks, ptr - HDR) + 1 < |h.blocks|
    then Resize(h, Find(h.blocks, ptr - HDR), request)
    else (h, NULL)
  }

  function Step(h: Heap, op: Op): (Heap, int) {
    match op
    case AllocOp(request) => Alloc(h, request)
    case ReallocOp(ptr, request) => Realloc(h, ptr, request)
    case FreeOp(ptr) => (Free(h, ptr), NULL)
  }

  /** A client frees and resizes only what it holds, or the null pointer. */
  predicate Legitimate(h: Heap, op: Op) {
    op.AllocOp? || op.ptr == NULL || Live(h.blocks, op.ptr - HDR) != None
  }

  function Run(h: Heap, ops: seq<Op>): Heap
    decreases |ops|
  {
    if ops == [] then h else Run(Step(h, ops[0]).0, ops[1..])
  }

  predicate LegitimateRun(h: Heap, ops: seq<Op>)
    decreases |ops|
  {
    ops == [] || (Legitimate(h, ops[0]) && LegitimateRun(Step(h, ops[0]).0, ops[1..]))
  }

  /** rt_memheap_init: one free block and the tailer. */
  function Init(pool: nat): Heap { Heap([Block(0, false), Block(pool - HDR, true)], [0]) }

  lemma InitGood(pool: nat)
    requires pool % ALIGN == 0 && pool >= 2 * HDR
    ensures Good(Init(pool), pool) && FreeBytes(Init(pool).blocks) == pool - 2 * HDR
    ensures forall a :: Live(Init(pool).blocks, a) == None
  {
    var b := Init(pool).blocks;
    assert b == [b[0]] + [b[1]];
    FreeBytesTwo(b[0], b[1]);
    OneBlockLive(b[0], b[1]);
    assert b[0].addr in Addrs(b);
  }

  /** A request becomes the least aligned size that holds it and is not below RT_MEMHEAP_MINIALLOC. */
  lemma RoundedIsLeast(request: nat, size: nat)
    ensures request <= Rounded(request) && MINI <= Rounded(request) && Rounded(request) % ALIGN == 0
    ensures size >= request && size >= MINI && size % ALIGN == 0 ==> Rounded(request) <= size
  {}

  lemma RoundedTwice(request: nat)
    ensures Rounded(Rounded(request)) == Rounded(request)
  {}

  lemma StepGood(h: Heap, pool: int, op: Op)
    requires Good(h, pool) && Legitimate(h, op)
    ensures Good(Step(h, op).0, pool)
  {
    hide Good, MemHeapModel.Alloc, Resize, Release, Rounded, Live;
    match op
    case AllocOp(request) => AllocSound(h, pool, request);
    case FreeOp(ptr) => if ptr != NULL { ReleaseSound(h, pool, ptr - HDR); }
    case ReallocOp(ptr, request) =>
      if request == 0 {
        if ptr != NULL { ReleaseSound(h, pool, ptr - HDR); }
      } else if ptr == NULL {
        AllocSound(h, pool, Rounded(request));
      } else {
        LiveBlock(h, pool, ptr - HDR);
        ResizeSound(h, pool, Find(h.blocks, ptr - HDR), request);
      }
  }

  lemma {:induction false} RunGood(h: Heap, pool: int, ops: seq<Op>)
    requires Good(h, pool) && LegitimateRun(h, ops)
    ensures Good(Run(h, ops), pool)
    decreases |ops|
  {
    if ops != [] {
      StepGood(h, pool, ops[0]);
      RunGood(Step(h, ops[0]).0, pool, ops[1..]);
    }
  }

  /** In every reachable heap two live payloads never overlap and none leaves the pool. */
  lemma LiveDisjoint(h: Heap, pool: int, a: int, a': int)
    requires Good(h, pool) && Live(h.blocks, a) != None && Live(h.blocks, a') != None && a < a'
    ensures 0 <= a && a + HDR + Live(h.blocks, a).size <= a' && a' + HDR + Live(h.blocks, a').size <= pool - HDR
  {
    LiveBlock(h, pool, a);
    LiveBlock(h, pool, a');
    var b, i, j := h.blocks, Find(h.blocks, a), Find(h.blocks, a');
    assert i < j;
    assert i + 1 < j ==> b[i + 1].addr + HDR <= b[j].addr;
    assert j + 1 < |b| - 1 ==> b[j + 1].addr + HDR <= b[|b| - 1].addr;
    assert i > 0 ==> b[0].addr + HDR <= b[i].addr;
  }

  /** Nothing leaks and nothing stays fragmented: once every payload has been given back,
      in whatever order, the heap is the one `Init` built. */
  lemma AllFreedIsInit(h: Heap, pool: nat)
    requires Good(h, pool) && forall a :: Live(h.blocks, a) == None
    ensures h == Init(pool)
  {
    var b := h.blocks;
    forall i | 0 <= i < |b| - 1
      ensures !b[i].used
    {
      if b[i].used { BlockIsLive(b, pool, i); }
    }
    assert b[0].used || b[1].used;
    assert |b| == 2;
    forall k | 0 <= k < |h.free|
      ensures h.free[k] == 0
    {
      FreeEntry(h, pool, k);
    }
    assert b[0].addr in h.free;
    SingleEntry(h.free);
  }

  lemma SingleEntry(s: seq<int>)
    requires Distinct(s) && 0 in s && forall k :: 0 <= k < |s| ==> s[k] == 0
    ensures s == [0]
  {
    IndexUnique(s, |s| - 1);
  }
}
