/** The statements of mem.c on block headers in the heap. */
module SmallCode {
  import opened Integers
  import opened HeapBytes
  import opened Blocks
  import opened SmallModel
  import opened SmallRuns

  /** struct heap_mem without its magic word. */
  datatype Header = Header(used: bool, next: int, prev: int)

  function NextAddr(b: seq<Block>, i: nat): int
    requires i < |b|
  {
    if i + 1 < |b| then b[i + 1].addr else b[i].addr
  }

  function PrevAddr(b: seq<Block>, i: nat): int
    requires i < |b|
  {
    if i > 0 then b[i - 1].addr else b[i].addr
  }

  ghost predicate WrittenAt(mem: map<int, Header>, b: seq<Block>, i: nat)
    requires i < |b|
  {
    && b[i].addr in mem && mem[b[i].addr].used == b[i].used && mem[b[i].addr].next == NextAddr(b, i)
    && (i + 1 < |b| ==> mem[b[i].addr].prev == PrevAddr(b, i))
  }

  /** The headers spell out the blocks; prev of heap_end is not kept up to date. */
  ghost predicate Written(mem: map<int, Header>, b: seq<Block>) {
    forall i: nat :: i < |b| ==> WrittenAt(mem, b, i)
  }

  lemma SetWritten(mem: map<int, Header>, b: seq<Block>, m: int, i: nat, used: bool)
    requires Tiled(b, m) && Written(mem, b) && i + 1 < |b|
    ensures b[i].addr in mem && Written(mem[b[i].addr := mem[b[i].addr].(used := used)], Set(b, i, used))
  {
    hide Tiled;
    assert WrittenAt(mem, b, i);
    var t, mem' := Set(b, i, used), mem[b[i].addr := mem[b[i].addr].(used := used)];
    forall j: nat | j < |t|
      ensures WrittenAt(mem', t, j)
    {
      assert WrittenAt(mem, b, j);
      AddrsDiffer(b, m, i, j);
    }
  }

  /** The writes that cut a new block off block i. */
  function CutHeaders(mem: map<int, Header>, a: int, n: int, end: int): map<int, Header>
    requires a in mem
  {
    var next := mem[a].next;
    var mem1 := mem[n := Header(false, next, a)];
    var mem2 := if a in mem1 then mem1[a := mem1[a].(next := n)] else mem1;
    if next != end && next in mem2 then mem2[next := mem2[next].(prev := n)] else mem2
  }

  lemma CutWritten(mem: map<int, Header>, b: seq<Block>, m: int, i: nat, n: int)
    requires Tiled(b, m) && Written(mem, b) && i + 1 < |b| && b[i].addr < n < b[i + 1].addr
    ensures b[i].addr in mem && mem[b[i].addr].next == b[i + 1].addr && b[i + 1].addr in mem
    ensures Written(CutHeaders(mem, b[i].addr, n, m + HDR), Cut(b, i, n))
  {
    hide Tiled, Cut;
    assert WrittenAt(mem, b, i) && WrittenAt(mem, b, i + 1);
    var t, mem' := Cut(b, i, n), CutHeaders(mem, b[i].addr, n, m + HDR);
    CutAt(b, i, n, i);
    CutAt(b, i, n, i + 1);
    CutAt(b, i, n, i + 2);
    forall j: nat | j < |t|
      ensures WrittenAt(mem', t, j)
    {
      CutAt(b, i, n, j);
      if j > 0 { CutAt(b, i, n, j - 1); }
      if j < |b| { CutAt(b, i, n, j + 1); }
      CutOne(mem, b, m, i, n, if j <= i then j else if j == i + 1 then i else j - 1);
    }
  }

  /** What the headers of the old blocks are afterwards. */
  lemma CutOne(mem: map<int, Header>, b: seq<Block>, m: int, i: nat, n: int, j: nat)
    requires Tiled(b, m) && Written(mem, b) && i + 1 < |b| && b[i].addr < n < b[i + 1].addr && j < |b|
    requires b[i].addr in mem
    ensures var t := CutHeaders(mem, b[i].addr, n, m + HDR);
            b[j].addr in t && t[b[j].addr].used == b[j].used && t[b[j].addr].next == (if j == i then n else NextAddr(b, j))
    ensures var t := CutHeaders(mem, b[i].addr, n, m + HDR);
            j + 1 < |b| ==> t[b[j].addr].prev == if j == i + 1 then n else PrevAddr(b, j)
    ensures var t := CutHeaders(mem, b[i].addr, n, m + HDR); n in t && t[n] == Header(false, b[i + 1].addr, b[i].addr)
    ensures b[j].addr != n
  {
    hide Tiled;
    assert WrittenAt(mem, b, i) && WrittenAt(mem, b, i + 1) && WrittenAt(mem, b, j);
    AddrsDiffer(b, m, i, j);
    AddrsDiffer(b, m, i + 1, j);
    Ordered(b, m, i, j);
    Ordered(b, m, j, i + 1);
    EndAddr(b, m, i + 1);
  }

  lemma EndAddr(b: seq<Block>, m: int, i: nat)
    requires Tiled(b, m) && i < |b|
    ensures b[i].addr == m + HDR <==> i + 1 == |b|
  {}

  /** The writes by which the block at a absorbs the one at n. */
  function JoinHeaders(mem: map<int, Header>, a: int, n: int): map<int, Header>
    requires a in mem && n in mem
  {
    var next := mem[n].next;
    var mem1 := mem[a := mem[a].(next := next)];
    if next in mem1 then mem1[next := mem1[next].(prev := a)] else mem1
  }

  lemma JoinWritten(mem: map<int, Header>, b: seq<Block>, m: int, i: nat)
    requires Tiled(b, m) && Written(mem, b) && i + 2 < |b|
    ensures b[i].addr in mem && b[i + 1].addr in mem && mem[b[i + 1].addr].next == b[i + 2].addr && b[i + 2].addr in mem
    ensures Written(JoinHeaders(mem, b[i].addr, b[i + 1].addr), Join(b, i))
  {
    hide Tiled, Join;
    assert WrittenAt(mem, b, i) && WrittenAt(mem, b, i + 1) && WrittenAt(mem, b, i + 2);
    var t, mem' := Join(b, i), JoinHeaders(mem, b[i].addr, b[i + 1].addr);
    JoinAt(b, i, 0);
    forall j: nat | j < |t|
      ensures WrittenAt(mem', t, j)
    {
      JoinAt(b, i, j);
      if j > 0 { JoinAt(b, i, j - 1); }
      if j + 1 < |t| { JoinAt(b, i, j + 1); }
      JoinOne(mem, b, m, i, if j <= i then j else j + 1);
    }
  }

  lemma JoinOne(mem: map<int, Header>, b: seq<Block>, m: int, i: nat, j: nat)
    requires Tiled(b, m) && Written(mem, b) && i + 2 < |b| && j < |b| && j != i + 1
    requires b[i].addr in mem && b[i + 1].addr in mem
    ensures var t := JoinHeaders(mem, b[i].addr, b[i + 1].addr);
            b[j].addr in t && t[b[j].addr].used == b[j].used && t[b[j].addr].next == (if j == i then b[i + 2].addr else NextAddr(b, j))
    ensures var t := JoinHeaders(mem, b[i].addr, b[i + 1].addr);
            j + 1 < |b| ==> t[b[j].addr].prev == if j == i + 2 then b[i].addr else PrevAddr(b, j)
  {
    hide Tiled;
    assert WrittenAt(mem, b, i) && WrittenAt(mem, b, i + 1) && WrittenAt(mem, b, i + 2) && WrittenAt(mem, b, j);
    AddrsDiffer(b, m, i, j);
    AddrsDiffer(b, m, i + 2, j);
  }

  /** What is found in one header. */
  lemma HeaderAt(mem: map<int, Header>, b: seq<Block>, i: nat)
    requires Written(mem, b) && i < |b|
    ensures b[i].addr in mem && mem[b[i].addr].used == b[i].used
    ensures i + 1 < |b| ==> mem[b[i].addr].next == b[i + 1].addr && mem[b[i].addr].prev == PrevAddr(b, i)
  {
    assert WrittenAt(mem, b, i);
  }

  // ---- bytes ----

  /** Every payload byte in use in b, except those of the block at `but`, is unchanged. */
  ghost predicate Kept(b: seq<Block>, d: seq<uint8>, d': seq<uint8>, but: int) {
    && |d| == |d'|
    && forall a, e, x :: Holds(b, a, e) && a != but && a + HDR <= x < a + e && 0 <= x < |d| ==> d'[x] == d[x]
  }

  lemma HoldsInside(b: seq<Block>, m: int, a: int, e: int)
    requires Tiled(b, m) && Holds(b, a, e)
    ensures 0 <= a && HDR <= e && a + e <= m + HDR
  {
    var j :| 0 <= j < |b| - 1 && b[j] == Block(a, true) && Extent(b, j) == e;
    NonNegative(b, m, j);
    Ordered(b, m, j + 1, |b| - 1);
  }

  /** Blocks in use lie beside every other block. */
  lemma HoldsBeside(b: seq<Block>, m: int, a: int, e: int, i: nat)
    requires Tiled(b, m) && Holds(b, a, e) && i + 1 < |b| && (a != b[i].addr || !b[i].used)
    ensures a + e <= b[i].addr || b[i + 1].addr <= a
  {
    var j :| 0 <= j < |b| - 1 && b[j] == Block(a, true) && Extent(b, j) == e;
    BlocksApart(b, m, i, j);
  }

  /** Writes inside block i leave the bytes of all others alone. */
  lemma InsideKept(b: seq<Block>, m: int, i: nat, d: seq<uint8>, d': seq<uint8>)
    requires Tiled(b, m) && i + 1 < |b| && |d| == |d'|
    requires forall x :: 0 <= x < |d| && !(b[i].addr <= x < b[i + 1].addr) ==> d'[x] == d[x]
    ensures Kept(b, d, d', b[i].addr)
    ensures !b[i].used ==> Kept(b, d, d', NULL)
  {
    hide Tiled, Holds;
    forall a, e, x | Holds(b, a, e) && (a != b[i].addr || !b[i].used) && a + HDR <= x < a + e && 0 <= x < |d|
      ensures d'[x] == d[x]
    {
      HoldsBeside(b, m, a, e, i);
    }
  }

  lemma KeptSelf(b: seq<Block>, d: seq<uint8>, but: int)
    ensures Kept(b, d, d, but)
  {}

  lemma KeptBut(b: seq<Block>, m: int, d: seq<uint8>, d': seq<uint8>, but: int)
    requires Tiled(b, m) && Kept(b, d, d', NULL)
    ensures Kept(b, d, d', but)
  {
    hide Tiled, Holds;
    forall a, e, x | Holds(b, a, e) && a + HDR <= x < a + e && 0 <= x < |d|
      ensures d'[x] == d[x]
    {
      HoldsInside(b, m, a, e);
    }
  }

  /** The bytes of one payload survive what keeps it. */
  lemma KeptPayload(b: seq<Block>, m: int, d: seq<uint8>, d': seq<uint8>, but: int, a: int, e: int, n: int)
    requires Tiled(b, m) && Kept(b, d, d', but) && Holds(b, a, e) && a != but && 0 <= n <= e - HDR && |d| >= m + HDR
    ensures SameBytes(d, d', a + HDR, a + HDR, n)
  {
    hide Tiled, Holds;
    HoldsInside(b, m, a, e);
    var x, y := d[a + HDR..a + HDR + n], d'[a + HDR..a + HDR + n];
    forall k | 0 <= k < n
      ensures y[k] == x[k]
    {
      assert d'[a + HDR + k] == d[a + HDR + k];
    }
  }

  /** An allocation, and then writes to the new payload: the old payloads are as before. */
  lemma KeptByMove(b: seq<Block>, t: seq<Block>, a: int, e: int, d: seq<uint8>, d1: seq<uint8>, d2: seq<uint8>, but: int)
    requires Gains(b, t, a, e) && Kept(b, d, d1, but) && Kept(t, d1, d2, a)
    ensures Kept(b, d, d2, but)
  {
    hide Holds;
    forall c, f, x | Holds(b, c, f) && c != but && c + HDR <= x < c + f && 0 <= x < |d|
      ensures d2[x] == d[x]
    {
      assert Holds(t, c, f) && c != a;
    }
  }

  lemma CopiedBytes(d: seq<uint8>, d1: seq<uint8>, d2: seq<uint8>, from: int, to: int, n: int)
    requires SameBytes(d, d1, from, from, n) && 0 <= to && to + n <= |d2| && d2[to..to + n] == d1[from..from + n]
    ensures SameBytes(d, d2, from, to, n)
  {}

  /** A header behind the first n bytes of a payload leaves these alone. */
  lemma PrefixKept(d: seq<uint8>, d': seq<uint8>, at: int, n: int, x: int)
    requires |d| == |d'| && 0 <= at && 0 <= n && at + n <= x && at + n <= |d|
    requires forall y :: 0 <= y < |d| && !(x <= y < x + HDR) ==> d'[y] == d[y]
    ensures SameBytes(d, d', at, at, n)
  {}

  lemma EndBelow(b: seq<Block>, m: int, i: nat)
    requires Tiled(b, m) && i < |b|
    ensures b[i].addr <= m + HDR
  {}

  lemma PayloadBytes(h: Heap, m: int, i: nat, d: seq<uint8>)
    requires Good(h, m) && i + 1 < |h.blocks| && |d| == m + 2 * HDR
    ensures SameBytes(d, d, h.blocks[i].addr + HDR, h.blocks[i].addr + HDR, Extent(h.blocks, i) - HDR)
  {
    NonNegative(h.blocks, m, i);
    EndBelow(h.blocks, m, i + 1);
  }

  /** How large the block is that rt_malloc hands out. */
  lemma NewExtent(h: Heap, m: int, n: nat) returns (e: int)
    requires Good(h, m) && Malloced(h, m, n).1 != NULL
    ensures var (t, r) := Malloced(h, m, n); Good(t, m) && e >= HDR + n && Gains(h.blocks, t.blocks, r - HDR, e)
  {
    hide Gains, Good, NoRoom, SmallModel.Malloc;
    MallocSound(h, m, n);
    var (t, r) := Malloced(h, m, n);
    e :| e >= HDR + Needed(n) && Gains(h.blocks, t.blocks, r - HDR, e);
  }

  /** The old and the new payload lie in the heap, apart from each other. */
  lemma CopyFits(b: seq<Block>, t: seq<Block>, m: int, i: nat, a: int, e: int)
    requires Tiled(b, m) && Tiled(t, m) && i + 1 < |b| && b[i].used && Gains(b, t, a, e)
    ensures a != b[i].addr && Holds(t, b[i].addr, Extent(b, i)) && Holds(t, a, e)
    ensures 0 <= b[i].addr && 0 <= a && HDR <= e && HDR <= Extent(b, i)
    ensures b[i].addr + Extent(b, i) <= m + HDR && a + e <= m + HDR
    ensures b[i].addr + Extent(b, i) <= a || a + e <= b[i].addr
  {
    hide Tiled, Holds;
    HoldsOne(b, m, i, Extent(b, i));
    assert !Holds(b, a, Extent(b, i));
    assert Holds(t, b[i].addr, Extent(b, i));
    HoldsInside(t, m, b[i].addr, Extent(b, i));
    HoldsInside(t, m, a, e);
    HeldAt(t, m, a, e);
    HoldsBeside(t, m, b[i].addr, Extent(b, i), Find(t, a));
  }

  /** After the copy: the first bytes are in the new block, and all other payloads as they were. */
  lemma MovedBytes(b: seq<Block>, t: seq<Block>, m: int, i: nat, a: int, e: int, d: seq<uint8>, d1: seq<uint8>, d2: seq<uint8>, n: int)
    requires Tiled(b, m) && Tiled(t, m) && i + 1 < |b| && b[i].used && Gains(b, t, a, e)
    requires |d| == |d1| == |d2| == m + 2 * HDR && Kept(b, d, d1, NULL) && 0 <= n <= Extent(b, i) - HDR && n <= e - HDR && 0 <= a
    requires a + HDR + n <= |d| && 0 <= b[i].addr && b[i].addr + HDR + n <= |d|
    requires d2[a + HDR..a + HDR + n] == d1[b[i].addr + HDR..b[i].addr + HDR + n]
    requires forall x :: 0 <= x < |d| && !(a + HDR <= x < a + HDR + n) ==> d2[x] == d1[x]
    ensures Kept(b, d, d2, b[i].addr) && SameBytes(d, d2, b[i].addr + HDR, a + HDR, n)
  {
    hide Tiled, Holds, Kept, SameBytes, Gains;
    CopyFits(b, t, m, i, a, e);
    HeldAt(t, m, a, e);
    InsideKept(t, m, Find(t, a), d1, d2);
    KeptBut(b, m, d, d1, b[i].addr);
    KeptByMove(b, t, a, e, d, d1, d2, b[i].addr);
    HoldsOne(b, m, i, Extent(b, i));
    KeptPayload(b, m, d, d1, NULL, b[i].addr, Extent(b, i), n);
    CopiedBytes(d, d1, d2, b[i].addr + HDR, a + HDR, n);
  }

  class SmallHeap {
    const memSize: int              // mem_size_aligned
    const heapEnd: int
    const data: array<uint8>        // the bytes from heap_ptr on; those of headers are kept in mem
    var mem: map<int, Header>
    var lfree: int
    var usedMem: int
    var maxMem: int
    ghost var heap: Heap

    ghost predicate Represents(h: Heap)
      reads this
    {
      Written(mem, h.blocks) && lfree == h.lfree && usedMem == UsedBytes(h.blocks) && maxMem == h.peak && heapEnd == memSize + HDR
    }

    ghost predicate Valid()
      reads this
    {
      Good(heap, memSize) && UsedBytes(heap.blocks) <= heap.peak && Represents(heap) && data.Length == memSize + 2 * HDR
    }

    /** rt_system_heap_init, when the space is large enough. */
    constructor (begin: nat, end: nat)
      requires end / ALIGN * ALIGN >= Up(begin) + 2 * HDR + MINI
      ensures Valid() && memSize == end / ALIGN * ALIGN - Up(begin) - 2 * HDR && heap == Init(memSize) && fresh(data)
    {
      var size := end / ALIGN * ALIGN - Up(begin) - 2 * HDR;
      memSize := size;
      heapEnd := size + HDR;
      data := new uint8[size + 2 * HDR];
      mem := map[0 := Header(false, size + HDR, 0)][size + HDR := Header(true, size + HDR, size + HDR)];
      lfree, usedMem, maxMem := 0, 0, 0;
      heap := Init(size);
      new;
      InitSound(memSize);
      assert UsedBytes(heap.blocks[1..]) == 0;
    }

    /** plug_holes. */
    method PlugHoles(m: int, ghost b: seq<Block>, ghost i: nat)
      requires heapEnd == memSize + HDR && Tiled(b, memSize) && Written(mem, b) && i + 1 < |b| && b[i] == Block(m, false)
      modifies this`mem, this`lfree
      ensures var p := Plug(b, old(lfree), i); Written(mem, p.blocks) && lfree == p.lfree
    {
      hide Tiled, Written, Join;
      HeaderAt(mem, b, i);
      HeaderAt(mem, b, i + 1);
      EndAddr(b, memSize, i + 1);
      AddrsDiffer(b, memSize, i, i + 1);
      ghost var f := Forward(b, lfree, i);
      var nmem := mem[m].next;
      if m != nmem && !mem[nmem].used && nmem != heapEnd {
        JoinWritten(mem, b, memSize, i);
        JoinTiled(b, memSize, i);
        JoinAt(b, i, i);
        if i > 0 { JoinAt(b, i, i - 1); }
        if lfree == nmem { lfree := m; }
        mem := mem[m := mem[m].(next := mem[nmem].next)];
        mem := mem[mem[nmem].next := mem[mem[nmem].next].(prev := m)];
      }
      HeaderAt(mem, f.blocks, i);
      HeaderAt(mem, f.blocks, if i > 0 then i - 1 else i);
      AddrsDiffer(f.blocks, memSize, i, if i > 0 then i - 1 else i);
      var pmem := mem[m].prev;
      if pmem != m && !mem[pmem].used {
        JoinWritten(mem, f.blocks, memSize, i - 1);
        if lfree == m { lfree := pmem; }
        mem := mem[pmem := mem[pmem].(next := mem[m].next)];
        mem := mem[mem[m].next := mem[mem[m].next].(prev := pmem)];
      }
    }

    /** rt_malloc. */
    method Malloc(n: nat) returns (ptr: int)
      requires Valid()
      modifies this, data
      ensures Valid() && (heap, ptr) == Malloced(old(heap), memSize, n)
      ensures Kept(old(heap).blocks, old(data[..]), data[..], NULL)
    {
      hide Good, Represents, UsedBytes, Take, FirstFit, Addrs, Find, Up, NoRoom, GainsRoom, SmallModel.Malloc, FitsAt, Kept;
      KeptSelf(heap.blocks, data[..], NULL);
      MallocSound(heap, memSize, n);
      MallocPeak(heap, memSize, n);
      MallocIs(heap, memSize, n);
      if n == 0 { return NULL; }
      var size := Up(n);
      if size > memSize { return NULL; }
      if size < MINI { size := MINI; }
      LfreeFound(heap, memSize);
      ghost var b, k := heap.blocks, Find(heap.blocks, heap.lfree);
      ghost var r := FirstFit(b, k, size, memSize - size);
      Starts(heap);
      var p := lfree;
      while p < memSize - size
        invariant Valid() && heap == old(heap) && data[..] == old(data[..]) && k < |b| && p == b[k].addr && r == FirstFit(b, k, size, memSize - size)
        decreases |b| - k
      {
        FitStep(heap, memSize, k, size, memSize - size);
        Reads(heap, k);
        FitsMeans(b, k, size);
        if !mem[p].used && mem[p].next - (p + HDR) >= size {
          TakeBlock(p, size, k);
          return p + HDR;
        }
        p := mem[p].next;
        k := k + 1;
      }
      FitStop(b, k, size, memSize - size);
      return NULL;
    }

    lemma Starts(h: Heap)
      requires Represents(h)
      ensures lfree == h.lfree && heapEnd == memSize + HDR
    {}

    lemma Reads(h: Heap, i: nat)
      requires Represents(h) && i + 1 < |h.blocks|
      ensures h.blocks[i].addr in mem && mem[h.blocks[i].addr].used == h.blocks[i].used
      ensures mem[h.blocks[i].addr].next == h.blocks[i + 1].addr
    {
      HeaderAt(mem, h.blocks, i);
    }

    /** The block is handed out, and lfree goes on to the next free block. */
    method TakeBlock(p: int, size: nat, ghost k: nat)
      requires Valid() && FitsAt(heap.blocks, k, size) && heap.blocks[k].addr == p && size % ALIGN == 0
      modifies this, data
      ensures Represents(heap) && heap == Take(old(heap), k, size)
      ensures Kept(old(heap).blocks, old(data[..]), data[..], NULL)
    {
      hide Tiled, Written, Coalesced, IsFree, UsedBytes, Cut, Kept;
      ghost var b, t := heap.blocks, Take(heap, k, size);
      HeaderAt(mem, b, k);
      TakeBlocks(heap, memSize, k, size);
      BlockAligned(b, memSize, k);
      if mem[p].next - (p + HDR) >= size + HDR + MINI {
        var n := p + HDR + size;
        CutWritten(mem, b, memSize, k, n);
        CutTiled(b, memSize, k, n);
        CutAt(b, k, n, k);
        SetWritten(CutHeaders(mem, p, n, heapEnd), Cut(b, k, n), memSize, k, true);
        CutThenUse(mem, p, n, heapEnd);
        var next := mem[p].next;
        mem := mem[n := Header(false, next, p)];
        mem := mem[p := mem[p].(next := n)];
        mem := mem[p := mem[p].(used := true)];
        if next != heapEnd { mem := mem[next := mem[next].(prev := n)]; }
        PlaceHeader(n, b, k);
        usedMem := usedMem + (size + HDR);
      } else {
        KeptSelf(b, data[..], NULL);
        SetWritten(mem, b, memSize, k, true);
        mem := mem[p := mem[p].(used := true)];
        usedMem := usedMem + (mem[p].next - p);
      }
      if maxMem < usedMem { maxMem := usedMem; }
      if p == lfree { AdvanceFree(t.blocks, k); }
      heap := t;
    }

    /** The bytes of a new header inside block k. */
    method PlaceHeader(n: int, ghost b: seq<Block>, ghost k: nat)
      requires Tiled(b, memSize) && k + 1 < |b| && b[k].addr <= n && n + HDR <= b[k + 1].addr && data.Length == memSize + 2 * HDR
      modifies data
      ensures forall y :: 0 <= y < data.Length && !(n <= y < n + HDR) ==> data[y] == old(data[y])
      ensures Kept(b, old(data[..]), data[..], b[k].addr) && (!b[k].used ==> Kept(b, old(data[..]), data[..], NULL))
    {
      hide Tiled, Kept;
      NonNegative(b, memSize, k);
      EndBelow(b, memSize, k + 1);
      Overwrite(data, n, HDR);
      InsideKept(b, memSize, k, old(data[..]), data[..]);
    }

    /** The loop that looks for the lowest free block. */
    method AdvanceFree(ghost b: seq<Block>, ghost k: nat)
      requires Written(mem, b) && Tiled(b, memSize) && heapEnd == memSize + HDR && k < |b| && lfree == b[k].addr
      modifies this`lfree
      ensures lfree == b[NextFree(b, k)].addr
    {
      hide Tiled, Written;
      ghost var i := k;
      HeaderAt(mem, b, i);
      EndAddr(b, memSize, i);
      while mem[lfree].used && lfree != heapEnd
        invariant k <= i < |b| && lfree == b[i].addr && NextFree(b, k) == NextFree(b, i) && lfree in mem
        invariant mem[lfree].used == b[i].used && (lfree == heapEnd <==> i + 1 == |b|)
        decreases |b| - i
      {
        HeaderAt(mem, b, i);
        HeaderAt(mem, b, i + 1);
        EndAddr(b, memSize, i + 1);
        lfree := mem[lfree].next;
        i := i + 1;
      }
    }

    /** rt_free of a null pointer or of a block in use. */
    method Free(ptr: int)
      requires Valid() && (ptr != NULL ==> InUse(heap.blocks, ptr - HDR))
      modifies this
      ensures Valid()
      ensures heap == if ptr == NULL then old(heap) else Release(old(heap), Find(old(heap.blocks), ptr - HDR))
    {
      hide Tiled, Written, Coalesced, IsFree, UsedBytes, Plug;
      if ptr == NULL { return; }
      var m := ptr - HDR;
      ghost var b, i := heap.blocks, Find(heap.blocks, m);
      ReleaseGood(heap, memSize, i);
      ReleasePeak(heap, i);
      GoodTiled(heap, memSize);
      ExtentPositive(b, memSize, i);
      HeaderAt(mem, b, i);
      SetWritten(mem, b, memSize, i, false);
      SetTiled(b, memSize, i, false);
      mem := mem[m := mem[m].(used := false)];
      if m < lfree { lfree := m; }
      usedMem := usedMem - (mem[m].next - m);
      PlugHoles(m, Set(b, i, false), i);
      heap := Release(heap, i);
    }

    /** rt_realloc: of a null pointer, of a pointer outside the heap, or of a block in use. */
    method Realloc(ptr: int, n: nat) returns (r: int)
      requires Valid() && (0 <= ptr < heapEnd ==> InUse(heap.blocks, ptr - HDR))
      modifies this, data
      ensures Valid()
      ensures Up(n) > memSize ==> heap == old(heap) && r == NULL
      ensures Up(n) <= memSize && ptr == NULL ==> (heap, r) == Malloced(old(heap), memSize, Up(n))
      ensures Up(n) <= memSize && ptr != NULL && !(0 <= ptr < heapEnd) ==> heap == old(heap) && r == ptr
      ensures 0 <= ptr < heapEnd ==> (heap, r) == Resized(old(heap), memSize, Find(old(heap.blocks), ptr - HDR), n)
      ensures Kept(old(heap).blocks, old(data[..]), data[..], ptr - HDR)
      ensures 0 <= ptr < heapEnd && r != NULL ==> SameBytes(old(data[..]), data[..], ptr, r, CopyLength(old(heap).blocks, ptr, n))
    {
      hide Tiled, Written, Coalesced, IsFree, EndRoom, UsedBytes, SmallModel.Malloc, Shrink, Release, Holds, Kept, SameBytes;
      GoodTiled(heap, memSize);
      KeptSelf(heap.blocks, data[..], ptr - HDR);
      var newSize := Up(n);
      if newSize > memSize { return NULL; }
      if ptr == NULL {
        ghost var h := heap;
        r := Malloc(newSize);
        KeptBut(h.blocks, memSize, old(data[..]), data[..], ptr - HDR);
        return;
      }
      if ptr < 0 || ptr >= heapEnd { return ptr; }
      var m := ptr - HDR;
      ghost var b, i, h := heap.blocks, Find(heap.blocks, m), heap;
      HeaderAt(mem, b, i);
      var size := mem[m].next - m - HDR;
      PayloadBytes(h, memSize, i, data[..]);
      assert CopyLength(b, ptr, n) == Min(size, newSize);
      if size == newSize { return ptr; }
      if newSize + HDR + MINI < size {
        ShrinkBlock(m, size, newSize, i);
        return ptr;
      }
      r := MoveBlock(ptr, size, newSize, i);
    }

    /** Allocate, copy and free. */
    method MoveBlock(ptr: int, size: int, newSize: nat, ghost i: nat) returns (r: int)
      requires Valid() && i + 1 < |heap.blocks| && heap.blocks[i] == Block(ptr - HDR, true) && size == Extent(heap.blocks, i) - HDR
      requires newSize % ALIGN == 0
      modifies this, data
      ensures Valid() && r == Malloced(old(heap), memSize, newSize).1
      ensures var t := Malloced(old(heap), memSize, newSize).0; heap == if r == NULL then t else ReleaseAt(t, ptr - HDR)
      ensures Kept(old(heap).blocks, old(data[..]), data[..], ptr - HDR)
      ensures r != NULL ==> SameBytes(old(data[..]), data[..], ptr, r, Min(size, newSize))
    {
      hide Tiled, EndRoom, Written, Coalesced, IsFree, UsedBytes, SmallModel.Malloc, Release, Holds, Kept, SameBytes, Needed, Find, Gains,
        Represents, Good, GainsRoom, NoRoom;
      ghost var h, d := heap, data[..];
      GoodTiled(h, memSize);
      MallocSound(h, memSize, newSize);
      r := Malloc(newSize);
      ghost var d1 := data[..];
      KeptBut(h.blocks, memSize, d, d1, ptr - HDR);
      if r != NULL {
        StillInUse(h, memSize, newSize, i);
        ghost var e := NewExtent(h, memSize, newSize);
        GoodTiled(heap, memSize);
        CopyPayload(r, ptr, Min(size, newSize), h.blocks, heap.blocks, i, e, d);
        Free(ptr);
      }
    }

    /** rt_memcpy from the old payload to the new one. */
    method CopyPayload(r: int, ptr: int, n: int, ghost b: seq<Block>, ghost t: seq<Block>, ghost i: nat, ghost e: int, ghost d: seq<uint8>)
      requires Tiled(b, memSize) && Tiled(t, memSize) && i + 1 < |b| && b[i] == Block(ptr - HDR, true) && Gains(b, t, r - HDR, e)
      requires 0 <= n <= Extent(b, i) - HDR && n <= e - HDR && data.Length == |d| == memSize + 2 * HDR && Kept(b, d, data[..], NULL)
      modifies data
      ensures Kept(b, d, data[..], ptr - HDR) && SameBytes(d, data[..], ptr, r, n)
    {
      hide Tiled, Holds, Kept, SameBytes, Gains;
      CopyFits(b, t, memSize, i, r - HDR, e);
      ghost var d1 := data[..];
      MemCopy(data, r, ptr, n);
      MovedBytes(b, t, memSize, i, r - HDR, e, d, d1, data[..], n);
    }

    /** The tail of the block is given back. */
    method ShrinkBlock(m: int, size: int, newSize: nat, ghost i: nat)
      requires Valid() && i + 1 < |heap.blocks| && heap.blocks[i] == Block(m, true) && newSize % ALIGN == 0
      requires size == Extent(heap.blocks, i) - HDR && Shrinks(heap.blocks, i, newSize)
      modifies this, data
      ensures Valid() && heap == Shrink(old(heap), i, newSize)
      ensures Kept(old(heap).blocks, old(data[..]), data[..], m) && SameBytes(old(data[..]), data[..], m + HDR, m + HDR, newSize)
    {
      hide Tiled, EndRoom, Written, Coalesced, IsFree, UsedBytes, Plug, Cut, Kept, SameBytes;
      ghost var b := heap.blocks;
      ShrinkGood(heap, memSize, i, newSize);
      ShrinkPeak(heap, i, newSize);
      HeaderAt(mem, b, i);
      BlockAligned(b, memSize, i);
      usedMem := usedMem - (size - newSize);
      var n := m + HDR + newSize;
      CutWritten(mem, b, memSize, i, n);
      CutTiled(b, memSize, i, n);
      CutAt(b, i, n, i + 1);
      var next := mem[m].next;
      mem := mem[n := Header(false, next, m)];
      mem := mem[m := mem[m].(next := n)];
      if next != heapEnd { mem := mem[next := mem[next].(prev := n)]; }
      PlaceHeader(n, b, i);
      NonNegative(b, memSize, i);
      EndBelow(b, memSize, i + 1);
      PrefixKept(old(data[..]), data[..], m + HDR, newSize, n);
      PlugHoles(n, Cut(b, i, n), i + 1);
      heap := Shrink(heap, i, newSize);
    }

    /** One call; callers keep the pointers they were given. */
    method Call(op: Op, owned: map<int, nat>) returns (owned': map<int, nat>)
      requires Valid() && Owns(heap.blocks, owned)
      modifies this, data
      ensures Kept(old(heap).blocks, old(data[..]), data[..], if op.Alloc? then NULL else op.ptr - HDR)
      ensures Valid() && Consistent(System(old(heap), owned), memSize)
      ensures System(heap, owned') == Stepped(System(old(heap), owned), memSize, op)
    {
      hide Good, Owns, UsedBytes, Resize, Release, SmallModel.Malloc, Represents, Addrs, Find, Up, Kept;
      Starts(heap);
      KeptSelf(heap.blocks, data[..], if op.Alloc? then NULL else op.ptr - HDR);
      owned' := owned;
      ghost var s := System(heap, owned);
      StepSound(s, memSize, op);
      match op {
        case Alloc(n) =>
          var p := Malloc(n);
          if p != NULL { owned' := owned'[p := n]; }
        case Realloc(q, n) =>
          if q == NULL {
            var p := Realloc(q, n);
            if p != NULL { owned' := owned'[p := Up(n)]; }
          } else if q in owned {
            OwnedBlock(s, memSize, q);
            OwnedApart(s, memSize, q, q);
            var p := Realloc(q, n);
            if p != NULL { owned' := (owned' - {q})[p := n]; }
          }
        case Free(q) =>
          if q in owned {
            OwnedBlock(s, memSize, q);
            Free(q);
            owned' := owned' - {q};
          }
      }
    }

    method RunAll(ops: seq<Op>, owned: map<int, nat>) returns (owned': map<int, nat>)
      requires Valid() && Owns(heap.blocks, owned)
      modifies this, data
      ensures Valid() && Consistent(System(old(heap), owned), memSize)
      ensures forall a, e :: Holds(old(heap).blocks, a, e) && Unnamed(ops, a) ==>
                Holds(heap.blocks, a, e) && SameBytes(old(data[..]), data[..], a + HDR, a + HDR, e - HDR)
      ensures System(heap, owned') == Run(System(old(heap), owned), memSize, ops)
      decreases |ops|
    {
      hide Good, Owns, UsedBytes, Represents, Step, Holds, SameBytes, Kept, Unnamed;
      owned' := owned;
      AllBytes(heap, memSize, data[..]);
      if ops != [] {
        ghost var s, d := System(heap, owned), data[..];
        StepSound(s, memSize, ops[0]);
        owned' := Call(ops[0], owned);
        ghost var h1, d1 := heap, data[..];
        owned' := RunAll(ops[1..], owned');
        forall a, e | Holds(s.heap.blocks, a, e) && Unnamed(ops, a)
          ensures Holds(heap.blocks, a, e) && SameBytes(d, data[..], a + HDR, a + HDR, e - HDR)
        {
          UnnamedRest(ops, a);
          StepHolds(s, memSize, ops[0], a, e);
          StepBytes(s, memSize, ops[0], a, e, d, d1);
          BytesChain(d, d1, data[..], a + HDR, e - HDR);
        }
      }
    }
  }

  /** min(size, newsize) of rt_realloc. */
  function CopyLength(b: seq<Block>, ptr: int, n: nat): int
    requires ptr - HDR in Addrs(b) && Find(b, ptr - HDR) + 1 < |b|
  {
    Min(Extent(b, Find(b, ptr - HDR)) - HDR, Up(n))
  }

  /** No call of a run frees or resizes the block at a. */
  predicate Unnamed(ops: seq<Op>, a: int) {
    forall i :: 0 <= i < |ops| ==> ops[i].Alloc? || ops[i].ptr - HDR != a
  }

  lemma UnnamedRest(ops: seq<Op>, a: int)
    requires ops != [] && Unnamed(ops, a)
    ensures (ops[0].Alloc? || ops[0].ptr - HDR != a) && Unnamed(ops[1..], a)
  {}

  lemma AllBytes(h: Heap, m: int, d: seq<uint8>)
    requires Good(h, m) && |d| == m + 2 * HDR
    ensures forall a, e :: Holds(h.blocks, a, e) ==> SameBytes(d, d, a + HDR, a + HDR, e - HDR)
  {
    hide Holds, SameBytes;
    forall a, e | Holds(h.blocks, a, e)
      ensures SameBytes(d, d, a + HDR, a + HDR, e - HDR)
    {
      HoldsInside(h.blocks, m, a, e);
      SameSelf(d, a + HDR, e - HDR);
    }
  }

  lemma SameSelf(d: seq<uint8>, at: int, n: int)
    requires 0 <= at && 0 <= n && at + n <= |d|
    ensures SameBytes(d, d, at, at, n)
  {}

  lemma BytesChain(d: seq<uint8>, d1: seq<uint8>, d2: seq<uint8>, at: int, n: int)
    requires SameBytes(d, d1, at, at, n) && SameBytes(d1, d2, at, at, n)
    ensures SameBytes(d, d2, at, at, n)
  {}

  lemma StepBytes(s: System, m: int, op: Op, a: int, e: int, d: seq<uint8>, d1: seq<uint8>)
    requires Consistent(s, m) && Holds(s.heap.blocks, a, e) && |d| == m + 2 * HDR && (op.Alloc? || op.ptr - HDR != a)
    requires Kept(s.heap.blocks, d, d1, if op.Alloc? then NULL else op.ptr - HDR)
    ensures SameBytes(d, d1, a + HDR, a + HDR, e - HDR)
  {
    hide Holds, Kept, SameBytes, Coalesced, EndRoom;
    HoldsInside(s.heap.blocks, m, a, e);
    KeptPayload(s.heap.blocks, m, d, d1, if op.Alloc? then NULL else op.ptr - HDR, a, e, e - HDR);
  }

  /** A call leaves every block in use that it does not name. */
  lemma StepHolds(s: System, m: int, op: Op, a: int, e: int)
    requires Consistent(s, m) && Holds(s.heap.blocks, a, e) && (op.Alloc? || op.ptr - HDR != a)
    ensures Holds(Stepped(s, m, op).heap.blocks, a, e)
  {
    hide Good, Owns, UsedBytes, Holds, Resize, Release, SmallModel.Malloc, Find, Addrs, Up;
    Callable(s, m);
    match op {
      case Alloc(n) => MallocHolds(s.heap, m, n, a, e);
      case Realloc(p, n) =>
        if p in s.owned {
          OwnedBlock(s, m, p);
          ResizeHolds(s.heap, m, Find(s.heap.blocks, p - HDR), n, a, e);
        } else if p == NULL {
          MallocHolds(s.heap, m, Up(n), a, e);
        }
      case Free(p) =>
        if p in s.owned {
          OwnedBlock(s, m, p);
          ReleaseGood(s.heap, m, Find(s.heap.blocks, p - HDR));
        }
    }
  }

  lemma MallocHolds(h: Heap, m: int, n: nat, a: int, e: int)
    requires Good(h, m) && Holds(h.blocks, a, e)
    ensures h.lfree in Addrs(h.blocks) && Holds(SmallModel.Malloc(h, m, n).0.blocks, a, e)
  {
    hide Good, Holds, SmallModel.Malloc;
    MallocSound(h, m, n);
  }

  lemma ResizeHolds(h: Heap, m: int, i: nat, n: nat, a: int, e: int)
    requires Good(h, m) && i + 1 < |h.blocks| && h.blocks[i].used && Holds(h.blocks, a, e) && a != h.blocks[i].addr
    ensures h.lfree in Addrs(h.blocks) && Holds(Resize(h, m, i, n).0.blocks, a, e)
  {
    hide Good, Holds, Resize;
    ResizeSound(h, m, i, n);
  }

  ghost predicate InUse(b: seq<Block>, a: int) {
    a in Addrs(b) && Find(b, a) + 1 < |b| && b[Find(b, a)].used
  }

  lemma MallocIs(h: Heap, m: int, n: nat)
    requires Good(h, m)
    ensures h.lfree in Addrs(h.blocks) && Malloced(h, m, n) == SmallModel.Malloc(h, m, n)
    ensures n == 0 || Up(n) > m ==> SmallModel.Malloc(h, m, n) == (h, NULL)
    ensures n > 0 && Up(n) <= m ==>
              var r := FirstFit(h.blocks, Find(h.blocks, h.lfree), Needed(n), m - Needed(n));
              SmallModel.Malloc(h, m, n) == if r == |h.blocks| then (h, NULL) else (Take(h, r, Needed(n)), h.blocks[r].addr + HDR)
  {
    LfreeFound(h, m);
  }

  lemma FitsMeans(b: seq<Block>, k: nat, size: int)
    requires k + 1 < |b|
    ensures FitsAt(b, k, size) <==> !b[k].used && b[k + 1].addr - (b[k].addr + HDR) >= size
  {}

  lemma FitStep(h: Heap, m: int, k: nat, size: int, limit: int)
    requires Good(h, m) && k < |h.blocks| && h.blocks[k].addr < limit <= m
    ensures k + 1 < |h.blocks|
    ensures FirstFit(h.blocks, k, size, limit) == if FitsAt(h.blocks, k, size) then k else FirstFit(h.blocks, k + 1, size, limit)
  {}

  lemma FitStop(b: seq<Block>, k: nat, size: int, limit: int)
    requires k < |b| && b[k].addr >= limit
    ensures FirstFit(b, k, size, limit) == |b|
  {}

  /** The order of two writes to different fields does not matter. */
  lemma CutThenUse(mem: map<int, Header>, p: int, n: int, end: int)
    requires p in mem && n != p && mem[p].next != p && mem[p].next != n && mem[p].next in mem
    ensures var next := mem[p].next; var mem3 := mem[n := Header(false, next, p)][p := mem[p].(next := n)][p := mem[p].(next := n, used := true)];
            var t := CutHeaders(mem, p, n, end);
            p in t && t[p := t[p].(used := true)] == if next != end then mem3[next := mem3[next].(prev := n)] else mem3
  {
    var next := mem[p].next;
    var mem3 := mem[n := Header(false, next, p)][p := mem[p].(next := n)][p := mem[p].(next := n, used := true)];
    var t, u := CutHeaders(mem, p, n, end), if next != end then mem3[next := mem3[next].(prev := n)] else mem3;
    assert t[p := t[p].(used := true)].Keys == u.Keys;
  }

  /** An allocation leaves the other blocks where they are. */
  lemma StillInUse(h: Heap, m: int, size: nat, i: nat)
    requires Good(h, m) && i + 1 < |h.blocks| && h.blocks[i].used && Malloced(h, m, size).1 != NULL
    ensures InUse(Malloced(h, m, size).0.blocks, h.blocks[i].addr)
  {
    hide Tiled, Coalesced, IsFree, SmallModel.Malloc, Holds;
    var b := h.blocks;
    MallocSound(h, m, size);
    var (t, r) := Malloced(h, m, size);
    var e :| e >= HDR + Needed(size) && Gains(b, t.blocks, r - HDR, e);
    HoldsOne(b, m, i, Extent(b, i));
    HeldAt(t.blocks, m, b[i].addr, Extent(b, i));
  }
}
