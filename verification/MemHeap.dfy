/** The memory heap of memheap.c with its in-place headers.

    The header fields of all blocks are kept field by field, each as a map from header
    address to value, so that every pointer assignment of the C code is one map update.
    Two rings run through the headers: all blocks in address order (next, prev) and the
    free list (next_free, prev_free), which also contains the list header. */
module MemHeapCode {
  import opened Integers
  import opened HeapBytes
  import opened Blocks
  import opened MemHeapModel
  import opened MemHeapRuns
  import opened Rings

  function Max(x: int, y: int): int { if x > y then x else y }

  function Headers(b: seq<Block>): (s: seq<int>)
    ensures |s| == |b| && forall i :: 0 <= i < |b| ==> s[i] == b[i].addr
  {
    seq(|b|, i requires 0 <= i < |b| => b[i].addr)
  }

  /** The largest amount in use at any time during an operation. */
  function Peak(h: Heap, pool: int, op: Op): int {
    match op
    case AllocOp(request) => pool - FreeBytes(Alloc(h, request).0.blocks)
    case FreeOp(_) => pool - FreeBytes(h.blocks)
    case ReallocOp(ptr, request) =>
      if request == 0 then pool - FreeBytes(h.blocks)
      else if ptr != NULL && ptr - HDR in Addrs(h.blocks) && Find(h.blocks, ptr - HDR) + 1 < |h.blocks| then
        var i := Find(h.blocks, ptr - HDR);
        if Rounded(request) > Size(h.blocks, i) && !GrowsInPlace(h.blocks, i, Rounded(request))
        then pool - FreeBytes(Alloc(h, Rounded(request)).0.blocks)
        else pool - FreeBytes(Resize(h, i, request).0.blocks)
      else pool - FreeBytes(Alloc(h, Rounded(request)).0.blocks)
  }

  /** The most bytes in use at any moment of a run, between the operations and inside them. */
  function HighWater(h: Heap, pool: int, ops: seq<Op>): int
    decreases |ops|
  {
    var now := pool - FreeBytes(h.blocks);
    if ops == [] then now else Max(now, Max(Peak(h, pool, ops[0]), HighWater(MemHeapRuns.Step(h, ops[0]).0, pool, ops[1..])))
  }

  /** No state of the run is above it. */
  lemma {:induction false} HighWaterBounds(h: Heap, pool: int, ops: seq<Op>, k: nat)
    requires k <= |ops|
    ensures pool - FreeBytes(Run(h, ops[..k]).blocks) <= HighWater(h, pool, ops)
    decreases |ops|
  {
    hide FreeBytes, Peak, MemHeapRuns.Step;
    if k > 0 {
      assert ops[..k][0] == ops[0] && ops[..k][1..] == ops[1..][..k - 1];
      HighWaterBounds(MemHeapRuns.Step(h, ops[0]).0, pool, ops[1..], k - 1);
    }
  }

  /** One round of RunAll. */
  lemma HighWaterStep(h: Heap, pool: int, ops: seq<Op>, max: int)
    requires pool - FreeBytes(h.blocks) <= max
    ensures ops == [] ==> Max(max, HighWater(h, pool, ops)) == max
    ensures ops != [] ==>
      Max(max, HighWater(h, pool, ops)) == Max(Max(max, Peak(h, pool, ops[0])), HighWater(MemHeapRuns.Step(h, ops[0]).0, pool, ops[1..]))
  {
    hide FreeBytes, Peak, MemHeapRuns.Step;
  }

  /** What rt_memheap_realloc does, in its three cases. */
  lemma ReallocCases(h: Heap, ptr: int, request: nat, pool: int)
    ensures var op, size := ReallocOp(ptr, request), Rounded(request);
            if request == 0 then
              && MemHeapRuns.Step(h, op) == (MemHeapRuns.Step(h, FreeOp(ptr)).0, NULL) && Peak(h, pool, op) == Peak(h, pool, FreeOp(ptr))
            else if ptr == NULL then
              && MemHeapRuns.Step(h, op) == MemHeapRuns.Step(h, AllocOp(size)) && Peak(h, pool, op) == Peak(h, pool, AllocOp(size))
            else if ptr - HDR in Addrs(h.blocks) && Find(h.blocks, ptr - HDR) + 1 < |h.blocks| then
              var i := Find(h.blocks, ptr - HDR);
              && MemHeapRuns.Step(h, op) == Resize(h, i, size)
              && Peak(h, pool, op) == pool - FreeBytes(if size > Size(h.blocks, i) && !GrowsInPlace(h.blocks, i, size)
                   then MemHeapRuns.Step(h, AllocOp(size)).0.blocks else Resize(h, i, size).0.blocks)
            else true
  {
    hide FreeBytes, GrowsInPlace, Rounded, Resize, MemHeapModel.Alloc;
    RoundedTwice(request);
    if ptr - HDR in Addrs(h.blocks) && Find(h.blocks, ptr - HDR) + 1 < |h.blocks| {
      ResizeRounds(h, Find(h.blocks, ptr - HDR), request);
    }
  }

  lemma ResizeRounds(h: Heap, i: nat, request: nat)
    requires i + 1 < |h.blocks|
    ensures Resize(h, i, Rounded(request)) == Resize(h, i, request)
  {
    hide GrowsInPlace, Rounded, MemHeapModel.Alloc, MoveBorder, CutTail;
    RoundedTwice(request);
  }

  /** Every payload byte that was live in b, except those of the block at `but`, is unchanged. */
  ghost predicate Kept(b: seq<Block>, m: seq<uint8>, m': seq<uint8>, but: int) {
    |m| == |m'| &&
    forall a, x :: a != but && Live(b, a) != None && a + HDR <= x < a + HDR + Live(b, a).size && 0 <= x < |m| ==> m'[x] == m[x]
  }

  /** A header written between block i and the next one leaves all other payloads alone. */
  lemma HeaderKeeps(h: Heap, pool: int, i: nat, end: nat, n: int, m: seq<uint8>, m': seq<uint8>)
    requires Good(h, pool) && i < end < |h.blocks| && |m| == |m'|
    requires h.blocks[i].addr + HDR <= n && n + HDR <= h.blocks[end].addr
    requires forall j :: i < j < end ==> !h.blocks[j].used
    requires forall x :: 0 <= x < |m| && !(n <= x < n + HDR) ==> m'[x] == m[x]
    ensures Kept(h.blocks, m, m', h.blocks[i].addr)
  {
    var b := h.blocks;
    forall a, x | a != b[i].addr && Live(b, a) != None && a + HDR <= x < a + HDR + Live(b, a).size && 0 <= x < |m|
      ensures m'[x] == m[x]
    {
      LiveBlock(h, pool, a);
      var j := Find(b, a);
      assert j < i || j >= end;
      if j < i {
        assert j + 1 < i ==> b[j + 1].addr + HDR <= b[i].addr;
      } else {
        assert j > end ==> b[end].addr + HDR <= b[j].addr;
      }
    }
  }

  ghost predicate Marked(used: map<int, bool>, b: seq<Block>) {
    forall i :: 0 <= i < |b| ==> b[i].addr in used && used[b[i].addr] == b[i].used
  }

  // ---- what the header fields have to show for each operation ----

  /** A new free header x behind block i, which becomes `first`. */
  lemma SplitHeaders(b: seq<Block>, pool: int, i: nat, first: Block, x: int, used: map<int, bool>)
    requires Tiled(b, pool) && i + 1 < |b| && first.addr == b[i].addr < x < b[i + 1].addr && Marked(used, b)
    ensures x !in Headers(b)
    ensures Headers(Splice(b, i, i + 1, [first, Block(x, false)])) == Inserted(Headers(b), i, x)
    ensures Marked(used[x := false][first.addr := first.used], Splice(b, i, i + 1, [first, Block(x, false)]))
  {
    hide Tiled, Marked;
    HeadersMembers(b, x);
    if x in Addrs(b) {
      InsideOnly(b, pool, i, i + 1, x);
      SliceAddrs(b, i);
    }
    SplitMarks(b, pool, i, first, x, used);
  }

  lemma SplitMarks(b: seq<Block>, pool: int, i: nat, first: Block, x: int, used: map<int, bool>)
    requires Tiled(b, pool) && i + 1 < |b| && first.addr == b[i].addr != x && x !in Headers(b) && Marked(used, b)
    ensures Marked(used[x := false][first.addr := first.used], Splice(b, i, i + 1, [first, Block(x, false)]))
  {
    hide Tiled;
    var b', used' := Splice(b, i, i + 1, [first, Block(x, false)]), used[x := false][first.addr := first.used];
    forall j | 0 <= j < |b'|
      ensures b'[j].addr in used' && used'[b'[j].addr] == b'[j].used
    {
      if j != i && j != i + 1 {
        var j' := if j < i then j else j - 1;
        assert b'[j] == b[j'] && Headers(b)[j'] == b[j'].addr;
        ApartHeaders(b, pool, i, j');
      }
    }
  }

  lemma HeadersMembers(b: seq<Block>, x: int)
    ensures x in Headers(b) <==> x in Addrs(b)
  {
    if x in Addrs(b) { assert Headers(b)[Find(b, x)] == x; }
  }

  lemma ApartHeaders(b: seq<Block>, pool: int, i: nat, j: nat)
    requires Tiled(b, pool) && i < |b| && j < |b| && i != j
    ensures b[i].addr != b[j].addr
  {}

  /** Block i changes its state only. */
  lemma MarkHeaders(b: seq<Block>, pool: int, i: nat, u: bool, used: map<int, bool>)
    requires Tiled(b, pool) && i + 1 < |b| && Marked(used, b)
    ensures var b' := Splice(b, i, i + 1, [Block(b[i].addr, u)]);
      Headers(b') == Headers(b) && Marked(used[b[i].addr := u], b')
  {
    var b' := Splice(b, i, i + 1, [Block(b[i].addr, u)]);
    forall j | 0 <= j < |b'|
      ensures b'[j].addr in used[b[i].addr := u] && used[b[i].addr := u][b'[j].addr] == b'[j].used
    {
      if j != i {
        assert b'[j] == b[j];
        ApartHeaders(b, pool, i, j);
      }
    }
  }

  lemma NewHeader(h: Heap, pool: int, i: nat, n: int)
    requires Good(h, pool) && i + 1 < |h.blocks| && h.blocks[i].addr + HDR <= n && n + HDR <= h.blocks[i + 1].addr
    ensures n !in h.free && 0 <= n && n + HDR <= pool
  {
    NewAddress(h, pool, i, i + 1, n);
    SliceAddrs(h.blocks, i);
    HeaderInPool(h.blocks, pool, i);
    HeaderInPool(h.blocks, pool, i + 1);
  }

  /** Exempting a free block exempts nothing. */
  lemma KeptFree(h: Heap, pool: int, i: nat, m: seq<uint8>, m': seq<uint8>)
    requires Good(h, pool) && i < |h.blocks| && !h.blocks[i].used && Kept(h.blocks, m, m', h.blocks[i].addr)
    ensures Kept(h.blocks, m, m', NULL)
  {
    if Live(h.blocks, h.blocks[i].addr) != None {
      LiveBlock(h, pool, h.blocks[i].addr);
      FindUnique(h.blocks, pool, i);
    }
    if Live(h.blocks, NULL) != None {
      LiveBlock(h, pool, NULL);
      HeaderInPool(h.blocks, pool, Find(h.blocks, NULL));
    }
  }

  /** The block list after a release: without the block when its left neighbour absorbs it,
      and without the right neighbour when that is free. */
  function ReleasedHeaders(b: seq<Block>, i: nat): seq<int>
    requires i + 1 < |b|
  {
    var s := Headers(b);
    if MergesLeft(b, i) then
      if MergesRight(b, i) then Without(Without(s, i), i) else Without(s, i)
    else if MergesRight(b, i) then Without(s, i + 1) else s
  }

  /** Headers from first + 1 up to end disappear. */
  function Joined(s: seq<int>, first: nat, end: nat): seq<int>
    requires first < end <= |s|
  {
    s[..first + 1] + s[end..]
  }

  lemma SpliceHeaders(b: seq<Block>, first: nat, end: nat, x: Block)
    requires first < end <= |b| && x.addr == b[first].addr
    ensures Headers(Splice(b, first, end, [x])) == Joined(Headers(b), first, end)
  {
    var t, s := Splice(b, first, end, [x]), Joined(Headers(b), first, end);
    assert |t| == |s|;
    forall j | 0 <= j < |t|
      ensures t[j].addr == s[j]
    {
      if j > first { assert t[j] == b[j - 1 - first + end]; }
    }
  }

  lemma JoinedIs(s: seq<int>, i: nat)
    requires i + 1 < |s|
    ensures Joined(s, i, i + 1) == s && Joined(s, i, i + 2) == Without(s, i + 1)
    ensures i > 0 ==> Joined(s, i - 1, i + 1) == Without(s, i) && Joined(s, i - 1, i + 2) == Without(Without(s, i), i)
  {}

  lemma ReleaseHeaders(h: Heap, i: nat)
    requires i + 1 < |h.blocks|
    ensures Headers(Release(h, i).blocks) == ReleasedHeaders(h.blocks, i)
  {
    hide Headers, Splice, Without, Joined;
    var b := h.blocks;
    var left, right := MergesLeft(b, i), MergesRight(b, i);
    var first, end := if left then i - 1 else i, if right then i + 2 else i + 1;
    SpliceHeaders(b, first, end, Block(b[first].addr, false));
    JoinedIs(Headers(b), i);
  }

  lemma ReleaseMarks(h: Heap, pool: int, i: nat, used: map<int, bool>)
    requires Tiled(h.blocks, pool) && i + 1 < |h.blocks| && h.blocks[i].used && Marked(used, h.blocks)
    ensures Marked(used[h.blocks[i].addr := false], Release(h, i).blocks)
  {
    hide Tiled;
    var b, b', used' := h.blocks, Release(h, i).blocks, used[h.blocks[i].addr := false];
    var first, end := if MergesLeft(b, i) then i - 1 else i, if MergesRight(b, i) then i + 2 else i + 1;
    forall j | 0 <= j < |b'|
      ensures b'[j].addr in used' && used'[b'[j].addr] == b'[j].used
    {
      var j' := if j <= first then j else j - 1 + end - first;
      assert b'[j].addr == b[j'].addr && (j != first ==> b'[j] == b[j']);
      if j' != i { ApartHeaders(b, pool, i, j'); }
    }
  }

  lemma SizeNonNegative(b: seq<Block>, pool: int, i: nat)
    requires Tiled(b, pool) && i + 1 < |b|
    ensures Size(b, i) >= 0
  {}

  /** What the header in front of block i says; in front of the first block is the tailer. */
  lemma LeftNeighbour(b: seq<Block>, pool: int, i: nat, next: map<int, int>, prev: map<int, int>, used: map<int, bool>)
    requires Tiled(b, pool) && Ring(next, prev, Headers(b)) && Marked(used, b) && i + 1 < |b|
    ensures b[i].addr in prev && prev[b[i].addr] in used && prev[b[i].addr] != b[i].addr
    ensures used[prev[b[i].addr]] <==> !MergesLeft(b, i)
    ensures i > 0 ==> prev[b[i].addr] == b[i - 1].addr
  {
    hide Tiled, Ring;
    RingPrev(next, prev, Headers(b), i);
    var j := if i > 0 then i - 1 else |b| - 1;
    ApartHeaders(b, pool, i, j);
    TailerUsed(b, pool);
    assert b[j].addr in used;
  }

  lemma TailerUsed(b: seq<Block>, pool: int)
    requires Tiled(b, pool)
    ensures b[|b| - 1].used
  {}

  lemma RightNeighbour(b: seq<Block>, pool: int, i: nat, used: map<int, bool>)
    requires Tiled(b, pool) && Marked(used, b) && i + 1 < |b|
    ensures b[i + 1].addr in used && (used[b[i + 1].addr] <==> !MergesRight(b, i)) && b[i + 1].addr != b[i].addr
  {
    hide Tiled;
    ApartHeaders(b, pool, i, i + 1);
  }

  // ---- moving the border behind a block ----

  lemma MoveBorderHeaders(h: Heap, i: nat, size: int)
    requires i + 2 < |h.blocks|
    ensures var x := h.blocks[i].addr + HDR + size; var s := Headers(h.blocks);
      && Headers(MoveBorder(h, i, size).blocks) == Inserted(Without(s, i + 1), i, x)
      && Headers(MoveBorder(h, i, size).blocks) == Without(Inserted(s, i, x), i + 2)
  {}

  lemma MoveBorderMarks(h: Heap, pool: int, i: nat, size: nat, used: map<int, bool>)
    requires Tiled(h.blocks, pool) && i + 2 < |h.blocks| && Marked(used, h.blocks)
    requires h.blocks[i].addr + HDR + size + HDR <= h.blocks[i + 2].addr
    ensures Marked(used[h.blocks[i].addr + HDR + size := false], MoveBorder(h, i, size).blocks)
  {
    hide Tiled;
    var b, x := h.blocks, h.blocks[i].addr + HDR + size;
    var b' := MoveBorder(h, i, size).blocks;
    forall j | 0 <= j < |b'|
      ensures b'[j].addr in used[x := false] && used[x := false][b'[j].addr] == b'[j].used
    {
      if j != i + 1 {
        assert b'[j] == b[j];
        OtherHeader(b, pool, i, i + 2, j, x);
      }
    }
  }

  /** Block j outside i + 1 .. end - 1 does not start at x. */
  lemma OtherHeader(b: seq<Block>, pool: int, i: nat, end: nat, j: nat, x: int)
    requires Tiled(b, pool) && i < end < |b| && j < |b| && !(i < j < end) && b[i].addr < x < b[end].addr
    ensures b[j].addr != x
  {
    assert j < i ==> b[j].addr + HDR <= b[i].addr;
    assert end < j ==> b[end].addr + HDR <= b[j].addr;
  }

  lemma CutTailAt(h: Heap, i: nat, size: nat, j: nat)
    requires i + 1 < |h.blocks| && j <= |h.blocks|
    ensures |CutTail(h, i, size).blocks| == |h.blocks| + 1
    ensures CutTail(h, i, size).blocks[j] ==
            if j <= i then h.blocks[j] else if j == i + 1 then Block(h.blocks[i].addr + HDR + size, false) else h.blocks[j - 1]
  {}

  lemma CutTailMarks(h: Heap, pool: int, i: nat, size: nat, used: map<int, bool>)
    requires Tiled(h.blocks, pool) && i + 1 < |h.blocks| && Marked(used, h.blocks)
    requires h.blocks[i].addr + HDR + size + HDR <= h.blocks[i + 1].addr
    ensures Marked(used[h.blocks[i].addr + HDR + size := false], CutTail(h, i, size).blocks)
    ensures Headers(CutTail(h, i, size).blocks) == Inserted(Headers(h.blocks), i, h.blocks[i].addr + HDR + size)
    ensures h.blocks[i].addr + HDR + size !in Headers(h.blocks)
  {
    hide Tiled, CutTail;
    var b, x := h.blocks, h.blocks[i].addr + HDR + size;
    var b' := CutTail(h, i, size).blocks;
    CutTailAt(h, i, size, 0);
    forall j | 0 <= j < |b|
      ensures Headers(b)[j] != x
    {
      OtherHeader(b, pool, i, i + 1, j, x);
    }
    forall j | 0 <= j < |b'|
      ensures b'[j].addr in used[x := false] && used[x := false][b'[j].addr] == b'[j].used
      ensures Headers(b')[j] == Inserted(Headers(b), i, x)[j]
    {
      CutTailAt(h, i, size, j);
      if j != i + 1 { OtherHeader(b, pool, i, i + 1, if j <= i then j else j - 1, x); }
    }
  }

  lemma BorderUnlisted(h: Heap, pool: int, i: nat, n: int)
    requires Good(h, pool) && i + 2 < |h.blocks| && h.blocks[i].used && !h.blocks[i + 1].used
    requires h.blocks[i].addr + HDR <= n && n + HDR <= h.blocks[i + 2].addr
    ensures n !in Unlisted(h.free, h.blocks[i + 1].addr) && h.blocks[i + 1].addr in h.free
  {
    NewAddress(h, pool, i, i + 2, n);
    SliceAddrs(h.blocks, i);
    UnlistedMember(h.free, h.blocks[i + 1].addr, n);
  }

  lemma BorderFresh(h: Heap, pool: int, i: nat, n: int)
    requires Good(h, pool) && i + 2 < |h.blocks| && h.blocks[i].used && !h.blocks[i + 1].used
    requires h.blocks[i].addr + HDR <= n && n + HDR <= h.blocks[i + 2].addr
    ensures n !in Unlisted(h.free, h.blocks[i + 1].addr) && 0 <= n && n + HDR <= pool
    ensures h.blocks[i + 1].addr in h.free
    ensures n !in Without(Headers(h.blocks), i + 1)
  {
    hide Tiled, Coalesced, Listed;
    var b := h.blocks;
    BorderUnlisted(h, pool, i, n);
    HeaderInPool(b, pool, i);
    HeaderInPool(b, pool, i + 2);
    var s := Without(Headers(b), i + 1);
    forall j | 0 <= j < |s|
      ensures s[j] != n
    {
      OtherHeader(b, pool, i, i + 2, if j <= i then j else j + 1, n);
    }
  }

  lemma FreeHasNext(b: seq<Block>, pool: int, i: nat)
    requires Tiled(b, pool) && i < |b| && !b[i].used
    ensures i + 1 < |b|
  {}

  lemma BorderBelow(b: seq<Block>, pool: int, i: nat)
    requires Tiled(b, pool) && i + 2 < |b|
    ensures b[i + 1].addr + HDR <= b[i + 2].addr
  {}

  /** A change inside one live payload leaves all others alone. */
  lemma PayloadKeeps(h: Heap, pool: int, at: int, m: seq<uint8>, m': seq<uint8>)
    requires Good(h, pool) && Live(h.blocks, at) != None && |m| == |m'|
    requires forall x :: 0 <= x < |m| && !(at + HDR <= x < at + HDR + Live(h.blocks, at).size) ==> m'[x] == m[x]
    ensures Kept(h.blocks, m, m', at)
  {
    var b := h.blocks;
    forall a, x | a != at && Live(b, a) != None && a + HDR <= x < a + HDR + Live(b, a).size && 0 <= x < |m|
      ensures m'[x] == m[x]
    {
      if a < at { LiveDisjoint(h, pool, a, at); } else { LiveDisjoint(h, pool, at, a); }
    }
  }

  /** Allocation, then writes to the new payload: the old payloads are as before. */
  lemma KeptByMove(b: seq<Block>, b1: seq<Block>, at: int, size: nat, m: seq<uint8>, m1: seq<uint8>, m2: seq<uint8>, but: int)
    requires Kept(b, m, m1, NULL) && Kept(b1, m1, m2, at) && Allocated(b, b1, at, size) && Live(b, NULL) == None
    ensures Kept(b, m, m2, but)
  {}

  /** The bytes of a live payload survive what keeps it. */
  lemma KeptPayload(h: Heap, pool: int, m: seq<uint8>, m': seq<uint8>, but: int, a: int)
    requires Good(h, pool) && |m| == pool && Kept(h.blocks, m, m', but) && Live(h.blocks, a) != None && a != but
    ensures SameBytes(m, m', a + HDR, a + HDR, Live(h.blocks, a).size)
  {
    PayloadInPool(h, pool, a);
    var n := Live(h.blocks, a).size;
    var s, s' := m[a + HDR..a + HDR + n], m'[a + HDR..a + HDR + n];
    forall x | 0 <= x < n
      ensures s'[x] == s[x]
    {
      assert m'[a + HDR + x] == m[a + HDR + x];
    }
  }

  lemma PayloadInPool(h: Heap, pool: int, a: int)
    requires Good(h, pool) && Live(h.blocks, a) != None
    ensures 0 <= a && 0 <= Live(h.blocks, a).size && a + HDR + Live(h.blocks, a).size <= pool - HDR
  {
    LiveBlock(h, pool, a);
    var i := Find(h.blocks, a);
    HeaderInPool(h.blocks, pool, i);
    HeaderInPool(h.blocks, pool, i + 1);
    SizeNonNegative(h.blocks, pool, i);
  }

  lemma BlockPayload(h: Heap, pool: int, i: nat)
    requires Good(h, pool) && i + 1 < |h.blocks| && h.blocks[i].used
    ensures Live(h.blocks, h.blocks[i].addr) == Some(Size(h.blocks, i)) && Size(h.blocks, i) >= 0
    ensures 0 <= h.blocks[i].addr && h.blocks[i].addr + HDR + Size(h.blocks, i) <= pool - HDR
  {
    BlockIsLive(h.blocks, pool, i);
    PayloadInPool(h, pool, h.blocks[i].addr);
  }

  lemma NullNotLive(h: Heap, pool: int)
    requires Good(h, pool)
    ensures Live(h.blocks, NULL) == None && Live(h.blocks, NULL - HDR) == None
  {
    if Live(h.blocks, NULL) != None { PayloadInPool(h, pool, NULL); }
    if Live(h.blocks, NULL - HDR) != None { PayloadInPool(h, pool, NULL - HDR); }
  }

  /** Writing a header behind the first n bytes of block i keeps those bytes. */
  lemma PrefixKept(m: seq<uint8>, m': seq<uint8>, at: int, n: int, x: int)
    requires |m| == |m'| && 0 <= at && 0 <= n && at + n <= x && at + n <= |m|
    requires forall y :: 0 <= y < |m| && !(x <= y < x + HDR) ==> m'[y] == m[y]
    ensures SameBytes(m, m', at, at, n)
  {}

  lemma Untouched(b: seq<Block>, m: seq<uint8>, but: int, at: int, n: nat, size: int)
    requires 0 <= at && n <= size && at + size <= |m|
    ensures Kept(b, m, m, but) && SameBytes(m, m, at, at, n)
  {}

  lemma KeptSelf(b: seq<Block>, m: seq<uint8>, but: int)
    ensures Kept(b, m, m, but)
  {}

  lemma CutTailSize(h: Heap, i: nat, size: nat)
    requires i + 1 < |h.blocks|
    ensures i + 2 < |CutTail(h, i, size).blocks|
    ensures CutTail(h, i, size).blocks[i + 1].addr == h.blocks[i].addr + HDR + size
    ensures Size(CutTail(h, i, size).blocks, i + 1) == Size(h.blocks, i) - size - HDR
  {}

  lemma MoveBorderSize(h: Heap, i: nat, size: nat)
    requires i + 2 < |h.blocks|
    ensures i + 2 < |MoveBorder(h, i, size).blocks|
    ensures MoveBorder(h, i, size).blocks[i + 1].addr == h.blocks[i].addr + HDR + size
    ensures Size(MoveBorder(h, i, size).blocks, i + 1) == Size(h.blocks, i) - size + Size(h.blocks, i + 1)
  {}

  lemma KeptButOne(b: seq<Block>, m: seq<uint8>, m': seq<uint8>, but: int)
    requires Kept(b, m, m', NULL) && Live(b, NULL) == None
    ensures Kept(b, m, m', but)
  {}

  lemma StillLive(b: seq<Block>, b': seq<Block>, at: int, size: nat, a: int)
    requires Allocated(b, b', at, size) && Live(b, a) != None
    ensures a != at && Live(b', a) == Live(b, a) && Live(b', at) != None && Live(b', at).size >= size
  {}

  lemma Apart(h: Heap, pool: int, a: int, a': int)
    requires Good(h, pool) && Live(h.blocks, a) != None && Live(h.blocks, a') != None && a != a'
    ensures a + HDR + Live(h.blocks, a).size <= a' + HDR || a' + HDR + Live(h.blocks, a').size <= a + HDR
  {
    if a < a' { LiveDisjoint(h, pool, a, a'); } else { LiveDisjoint(h, pool, a', a); }
  }

  lemma CopiedBytes(m: seq<uint8>, m1: seq<uint8>, m2: seq<uint8>, from: int, to: int, n: int)
    requires SameBytes(m, m1, from, from, n) && 0 <= to && to + n <= |m2|
    requires m2[to..to + n] == m1[from..from + n]
    ensures SameBytes(m, m2, from, to, n)
  {}

  /** No call of a run names the payload with header a. */
  predicate Unnamed(ops: seq<Op>, a: int) {
    forall i :: 0 <= i < |ops| ==> ops[i].AllocOp? || ops[i].ptr - HDR != a
  }

  ghost predicate Keeps(h0: Heap, m0: seq<uint8>, h: Heap, m: seq<uint8>, ops: seq<Op>) {
    forall a :: Live(h0.blocks, a) != None && Unnamed(ops, a) ==>
      Live(h.blocks, a) == Live(h0.blocks, a) && SameBytes(m0, m, a + HDR, a + HDR, Live(h0.blocks, a).size)
  }

  lemma KeepsAll(h: Heap, pool: int, m: seq<uint8>)
    requires Good(h, pool) && |m| == pool
    ensures Keeps(h, m, h, m, [])
  {
    forall a | Live(h.blocks, a) != None
      ensures SameBytes(m, m, a + HDR, a + HDR, Live(h.blocks, a).size)
    {
      PayloadInPool(h, pool, a);
    }
  }

  /** A call leaves a payload alone that it does not name. */
  lemma StepKeepsLive(h: Heap, pool: int, op: Op, a: int)
    requires Good(h, pool) && Legitimate(h, op) && Live(h.blocks, a) != None
    requires op.AllocOp? || op.ptr - HDR != a
    ensures Live(MemHeapRuns.Step(h, op).0.blocks, a) == Live(h.blocks, a)
  {
    hide Good, Live, Resize, Alloc, ReleaseAt;
    match op
    case AllocOp(request) => AllocSound(h, pool, request);
    case FreeOp(ptr) => if ptr != NULL { ReleaseSound(h, pool, ptr - HDR); }
    case ReallocOp(ptr, request) =>
      if request == 0 {
        if ptr != NULL { ReleaseSound(h, pool, ptr - HDR); }
      } else if ptr == NULL {
        AllocSound(h, pool, Rounded(request));
      } else {
        LiveBlock(h, pool, ptr - HDR);
        ResizeSound(h, pool, Find(h.blocks, ptr - HDR), request);
      }
  }

  lemma KeepsStep(h0: Heap, m0: seq<uint8>, h: Heap, pool: int, m: seq<uint8>, m': seq<uint8>, ops: seq<Op>, i: nat)
    requires i < |ops| && Keeps(h0, m0, h, m, ops[..i]) && Good(h, pool) && |m| == pool && Legitimate(h, ops[i])
    requires Kept(h.blocks, m, m', if ops[i].AllocOp? then NULL else ops[i].ptr - HDR)
    ensures Keeps(h0, m0, MemHeapRuns.Step(h, ops[i]).0, m', ops[..i + 1])
  {
    hide Good, Live, MemHeapRuns.Step, Kept;
    forall a | Live(h0.blocks, a) != None && Unnamed(ops[..i + 1], a)
      ensures Live(MemHeapRuns.Step(h, ops[i]).0.blocks, a) == Live(h0.blocks, a)
      ensures SameBytes(m0, m', a + HDR, a + HDR, Live(h0.blocks, a).size)
    {
      assert ops[..i + 1][i] == ops[i];
      assert forall j :: 0 <= j < i ==> ops[..i][j] == ops[..i + 1][j];
      assert Unnamed(ops[..i], a);
      StepKeepsLive(h, pool, ops[i], a);
      NullNotLive(h, pool);
      KeptPayload(h, pool, m, m', if ops[i].AllocOp? then NULL else ops[i].ptr - HDR, a);
    }
  }

  class MemHeap {
    var poolSize: nat
    var availableSize: int
    var maxUsedSize: int
    // header fields, by header address
    var next: map<int, int>
    var prev: map<int, int>
    var nextFree: map<int, int>
    var prevFree: map<int, int>
    var used: map<int, bool>
    // the bytes of the pool
    var mem: array<uint8>

    ghost var heap: Heap

    ghost predicate BlockRing(b: seq<Block>)
      reads this`next, this`prev
    {
      Ring(next, prev, Headers(b))
    }

    ghost predicate FreeRing(free: seq<int>)
      reads this`nextFree, this`prevFree
    {
      Ring(nextFree, prevFree, [HEADER] + free)
    }

    /** The headers represent h. */
    ghost predicate Represents(h: Heap)
      reads this`next, this`prev, this`nextFree, this`prevFree, this`used
    {
      BlockRing(h.blocks) && FreeRing(h.free) && Marked(used, h.blocks)
    }

    ghost predicate Valid()
      reads this
    {
      && Good(heap, poolSize) && Represents(heap) && mem.Length == poolSize
      && availableSize == FreeBytes(heap.blocks)
      && poolSize - availableSize <= maxUsedSize
    }

    /** rt_memheap_init. */
    constructor (size: nat)
      requires size / ALIGN * ALIGN >= 2 * HDR
      ensures Valid() && fresh(mem) && poolSize == size / ALIGN * ALIGN
      ensures heap == Init(poolSize) && availableSize == poolSize - 2 * HDR && maxUsedSize == 2 * HDR
    {
      var pool := size / ALIGN * ALIGN;
      poolSize := pool;
      availableSize := pool - 2 * HDR;
      maxUsedSize := 2 * HDR;
      var tailer := pool - HDR;
      next := map[0 := tailer, tailer := 0];
      prev := map[0 := tailer, tailer := 0];
      nextFree := map[HEADER := 0, 0 := HEADER, tailer := NULL];
      prevFree := map[HEADER := 0, 0 := HEADER, tailer := NULL];
      used := map[0 := false, tailer := true];
      mem := new uint8[pool];
      heap := Init(pool);
      InitGood(pool);
    }

    // ---- pointer assignments ----

    /** Insert x at the head of the free list. */
    method LinkFree(x: int, ghost free: seq<int>)
      requires FreeRing(free) && x !in free && x != HEADER
      modifies this`nextFree, this`prevFree
      ensures FreeRing([x] + free)
    {
      ghost var s := [HEADER] + free;
      RingInsert(nextFree, prevFree, s, 0, x);
      assert Inserted(s, 0, x) == [HEADER] + ([x] + free);
      nextFree := nextFree[x := nextFree[HEADER]];
      prevFree := prevFree[x := HEADER];
      prevFree := prevFree[nextFree[HEADER] := x];
      nextFree := nextFree[HEADER := x];
    }

    /** Remove x from the free list. */
    method UnlinkFree(x: int, ghost free: seq<int>, ghost k: nat)
      requires FreeRing(free) && k < |free| && free[k] == x
      modifies this`nextFree, this`prevFree
      ensures FreeRing(Without(free, k))
    {
      ghost var s := [HEADER] + free;
      assert s[k + 1] == x;
      RingPrev(nextFree, prevFree, s, k + 1);
      RingRemove(nextFree, prevFree, s, k + 1);
      assert Without(s, k + 1) == [HEADER] + Without(free, k);
      var n, p := nextFree[x], prevFree[x];
      prevFree := prevFree[n := p];
      nextFree := nextFree[p := n];
    }

    /** Mark x as being on no free list. */
    method ClearFree(x: int, ghost free: seq<int>)
      requires FreeRing(free) && x !in free && x != HEADER
      modifies this`nextFree, this`prevFree
      ensures FreeRing(free)
    {
      RingFrame(nextFree, prevFree, nextFree[x := NULL], prevFree[x := NULL], [HEADER] + free);
      nextFree := nextFree[x := NULL];
      prevFree := prevFree[x := NULL];
    }

    /** Link the new header x behind entry i of the block list. */
    method LinkBlock(header: int, x: int, ghost s: seq<int>, ghost i: nat)
      requires Ring(next, prev, s) && i < |s| && s[i] == header && x !in s
      modifies this`next, this`prev
      ensures Ring(next, prev, Inserted(s, i, x))
    {
      RingInsert(next, prev, s, i, x);
      prev := prev[x := header];
      next := next[x := next[header]];
      prev := prev[next[header] := x];
      next := next[header := x];
    }

    /** Take the header x, entry i, out of the block list. */
    method UnlinkBlock(x: int, ghost s: seq<int>, ghost i: nat)
      requires Ring(next, prev, s) && i < |s| && |s| > 1 && s[i] == x
      modifies this`next, this`prev
      ensures Ring(next, prev, Without(s, i))
    {
      RingPrev(next, prev, s, i);
      RingRemove(next, prev, s, i);
      var n, p := next[x], prev[x];
      next := next[p := n];
      prev := prev[n := p];
    }

    method RaiseMaxUsed()
      modifies this`maxUsedSize
      ensures maxUsedSize == Max(old(maxUsedSize), poolSize - availableSize)
    {
      if poolSize - availableSize > maxUsedSize {
        maxUsedSize := poolSize - availableSize;
      }
    }

    /** MEMITEM_SIZE of the block i. */
    method ItemSize(item: int, ghost i: nat) returns (size: int)
      requires BlockRing(heap.blocks) && i + 1 < |heap.blocks| && heap.blocks[i].addr == item
      ensures size == Size(heap.blocks, i)
    {
      assert Headers(heap.blocks)[i] == item;
      size := next[item] - item - HDR;
    }

    /** Walk the free list up to the first block of at least size bytes. */
    method Search(size: int) returns (header: int, freeSize: int)
      requires Valid() && size > 0
      ensures var k := FirstFit(heap, size, 0);
        if k < |heap.free| then header == heap.free[k] && freeSize == SizeAt(heap.blocks, header) >= size
        else header == HEADER && freeSize < size
    {
      hide Good, Ring, Marked, FreeBytes, FirstFit, SizeAt, Size, Find, Addrs, Headers;
      freeSize := 0;
      FitStep(heap, poolSize, size, 0);
      ghost var s, k := [HEADER] + heap.free, 0;
      RingNext(nextFree, prevFree, s, 0);
      NotHeader(heap, poolSize);
      header := nextFree[HEADER];
      while header != HEADER && freeSize < size
        invariant 0 <= k <= |heap.free|
        invariant header == if k < |heap.free| then heap.free[k] else HEADER
        invariant if freeSize < size then FirstFit(heap, size, 0) == FirstFit(heap, size, k)
                  else k < |heap.free| && FirstFit(heap, size, 0) == k && freeSize == SizeAt(heap.blocks, header)
        decreases |heap.free| - k, freeSize < size
      {
        FitStep(heap, poolSize, size, k);
        FitStep(heap, poolSize, size, k + 1);
        freeSize := ItemSize(header, Find(heap.blocks, header));
        if freeSize < size {
          RingNext(nextFree, prevFree, s, k + 1);
          header := nextFree[header];
          k := k + 1;
        }
      }
    }

    /** rt_memheap_alloc. */
    method Alloc(request: nat) returns (ptr: int)
      requires Valid()
      modifies this, mem
      ensures Valid() && mem == old(mem) && poolSize == old(poolSize)
      ensures (heap, ptr) == MemHeapRuns.Step(old(heap), AllocOp(request))
      ensures maxUsedSize == Max(old(maxUsedSize), Peak(old(heap), poolSize, AllocOp(request)))
      ensures Kept(old(heap).blocks, old(mem[..]), mem[..], NULL)
    {
      hide Tiled, Coalesced, Ring, Marked, Listed, FreeBytes, FirstFit;
      var size := Rounded(request);
      if size < availableSize {
        var header, freeSize := Search(size);
        if freeSize >= size {
          ghost var k := FirstFit(heap, size, 0);
          FirstFitBlock(heap, poolSize, size);
          if freeSize >= size + HDR + MINI {
            TakeSplit(header, size, k);
          } else {
            TakeWhole(header, freeSize, size, k);
          }
          return header + HDR;
        }
      }
      ptr := NULL;
    }

    /** The assignments that cut the new free header newPtr off block i and hand block i out. */
    method SplitLinks(header: int, newPtr: int, ghost h: Heap, ghost pool: int, ghost i: nat, ghost k: nat)
      requires Represents(h) && Good(h, pool) && i + 1 < |h.blocks| && k < |h.free|
      requires header == h.blocks[i].addr == h.free[k] && header < newPtr < h.blocks[i + 1].addr && newPtr !in h.free
      modifies this`next, this`prev, this`nextFree, this`prevFree, this`used
      ensures Represents(Heap(Splice(h.blocks, i, i + 1, [Block(header, true), Block(newPtr, false)]),
                              [newPtr] + Without(h.free, k)))
    {
      hide Tiled, Coalesced, Ring, Marked, Splice;
      SplitHeaders(h.blocks, pool, i, Block(header, true), newPtr, used);
      HeaderInPool(h.blocks, pool, i);
      WithoutMember(h.free, k, header);
      WithoutMember(h.free, k, newPtr);
      used := used[newPtr := false];
      LinkBlock(header, newPtr, Headers(h.blocks), i);
      UnlinkFree(header, h.free, k);
      ClearFree(header, Without(h.free, k));
      LinkFree(newPtr, Without(h.free, k));
      used := used[header := true];
    }

    /** Hand out the front of the block behind entry k of the free list. */
    method TakeSplit(header: int, size: nat, ghost k: nat)
      requires Valid() && size % ALIGN == 0 && EntryFits(heap, k, size + HDR + MINI) && heap.free[k] == header
      modifies this, mem
      ensures Valid() && mem == old(mem) && poolSize == old(poolSize)
      ensures heap == Take(old(heap), k, Find(old(heap).blocks, header), size)
      ensures maxUsedSize == Max(old(maxUsedSize), poolSize - availableSize)
      ensures Kept(old(heap).blocks, old(mem[..]), mem[..], NULL)
    {
      hide Tiled, Coalesced, Ring, Marked, Listed, FreeBytes, Kept;
      ghost var h, i := heap, Find(heap.blocks, header);
      var newPtr := header + size + HDR;
      TakeGood(h, poolSize, k, i, size);
      TakeFreeBytes(h, poolSize, k, i, size);
      NewHeader(h, poolSize, i, newPtr);
      Overwrite(mem, newPtr, HDR);
      HeaderKeeps(h, poolSize, i, i + 1, newPtr, old(mem[..]), mem[..]);
      KeptFree(h, poolSize, i, old(mem[..]), mem[..]);
      SplitLinks(header, newPtr, h, poolSize, i, k);
      availableSize := availableSize - size - HDR;
      RaiseMaxUsed();
      heap := Take(h, k, i, size);
    }

    /** The assignments that hand out block i as it is. */
    method WholeLinks(header: int, ghost h: Heap, ghost pool: int, ghost i: nat, ghost k: nat)
      requires Represents(h) && Good(h, pool) && i + 1 < |h.blocks| && k < |h.free|
      requires header == h.blocks[i].addr == h.free[k]
      modifies this`nextFree, this`prevFree, this`used
      ensures Represents(Heap(Splice(h.blocks, i, i + 1, [Block(header, true)]), Without(h.free, k)))
    {
      hide Tiled, Coalesced, Ring, Marked;
      MarkHeaders(h.blocks, pool, i, true, used);
      HeaderInPool(h.blocks, pool, i);
      WithoutMember(h.free, k, header);
      UnlinkFree(header, h.free, k);
      ClearFree(header, Without(h.free, k));
      used := used[header := true];
    }

    /** Hand out the whole block behind entry k of the free list. */
    method TakeWhole(header: int, freeSize: int, size: nat, ghost k: nat)
      requires Valid() && size % ALIGN == 0 && EntryFits(heap, k, size) && heap.free[k] == header
      requires freeSize == Size(heap.blocks, Find(heap.blocks, header)) < size + HDR + MINI
      modifies this
      ensures Valid() && mem == old(mem) && poolSize == old(poolSize)
      ensures heap == Take(old(heap), k, Find(old(heap).blocks, header), size)
      ensures maxUsedSize == Max(old(maxUsedSize), poolSize - availableSize)
    {
      hide Tiled, Coalesced, Ring, Marked, Listed, FreeBytes, Kept;
      ghost var h, i := heap, Find(heap.blocks, header);
      TakeGood(h, poolSize, k, i, size);
      TakeFreeBytes(h, poolSize, k, i, size);
      availableSize := availableSize - freeSize;
      RaiseMaxUsed();
      WholeLinks(header, h, poolSize, i, k);
      heap := Take(h, k, i, size);
    }

    /** rt_memheap_free. */
    method Free(ptr: int)
      requires Valid() && Legitimate(heap, FreeOp(ptr))
      modifies this
      ensures Valid() && mem == old(mem) && poolSize == old(poolSize)
      ensures heap == MemHeapRuns.Step(old(heap), FreeOp(ptr)).0
      ensures maxUsedSize == Max(old(maxUsedSize), Peak(old(heap), poolSize, FreeOp(ptr)))
    {
      hide Good, Represents, FreeBytes, Live, Release;
      if ptr == NULL { return; }
      LiveBlock(heap, poolSize, ptr - HDR);
      FreeBlock(ptr - HDR, Find(heap.blocks, ptr - HDR));
    }

    method FreeBlock(header: int, ghost i: nat)
      requires Valid() && i + 1 < |heap.blocks| && heap.blocks[i] == Block(header, true)
      modifies this
      ensures Valid() && mem == old(mem) && poolSize == old(poolSize)
      ensures heap == Release(old(heap), i) && maxUsedSize == old(maxUsedSize)
    {
      hide Tiled, Coalesced, Ring, Marked, Listed, FreeBytes, Splice;
      ghost var h := heap;
      ReleaseGood(h, poolSize, i);
      ReleaseFreeBytes(h, poolSize, i);
      var size := ItemSize(header, i);
      var merges := ReleaseLinks(header, h, poolSize, i);
      availableSize := availableSize + size + merges * HDR;
      SizeNonNegative(h.blocks, poolSize, i);
      heap := Release(h, i);
    }

    /** The assignments of a release; the result counts the merges, each of which gives
        back one header. */
    method ReleaseLinks(block: int, ghost h: Heap, ghost pool: int, ghost i: nat) returns (merges: nat)
      requires Represents(h) && Good(h, pool) && i + 1 < |h.blocks| && h.blocks[i] == Block(block, true)
      modifies this`next, this`prev, this`nextFree, this`prevFree, this`used
      ensures Represents(Release(h, i))
      ensures merges == (if MergesLeft(h.blocks, i) then 1 else 0) + if MergesRight(h.blocks, i) then 1 else 0
    {
      hide Tiled, Coalesced, Ring, Marked, Splice, IndexOf, FreeBytes, Size, FirstFit;
      ghost var b, s := h.blocks, Headers(h.blocks);
      ReleaseHeaders(h, i);
      ReleaseMarks(h, pool, i, used);
      LeftNeighbour(b, pool, i, next, prev, used);
      RightNeighbour(b, pool, i, used);
      var header, insert := block, true;
      merges := 0;
      used := used[header := false];
      ghost var s1 := s;
      if !used[prev[header]] {
        merges := merges + 1;
        var left := prev[header];
        UnlinkBlock(header, s, i);
        s1 := Without(s, i);
        header := left;
        insert := false;
      }
      ghost var rest := h.free;
      RingNext(next, prev, s1, if MergesLeft(b, i) then i - 1 else i);
      if !used[next[header]] {
        merges := merges + 1;
        var newPtr := next[header];
        UnlinkBlock(newPtr, s1, if MergesLeft(b, i) then i else i + 1);
        UnlinkFree(newPtr, rest, IndexOf(rest, newPtr));
        rest := Unlisted(rest, newPtr);
      }
      if insert {
        UnlistedMember(h.free, b[i + 1].addr, header);
        HeaderInPool(b, pool, i);
        LinkFree(header, rest);
      }
    }

    /** The assignments of growing in place: the free block behind block i is replaced by
        a smaller one further on. */
    method GrowLinks(header: int, newPtr: int, ghost h: Heap, ghost pool: int, ghost i: nat, ghost size: nat)
      requires Represents(h) && Good(h, pool) && i + 2 < |h.blocks| && h.blocks[i] == Block(header, true)
      requires !h.blocks[i + 1].used && size % ALIGN == 0 && newPtr == header + HDR + size
      requires newPtr + HDR <= h.blocks[i + 2].addr
      modifies this`next, this`prev, this`nextFree, this`prevFree, this`used
      ensures Represents(MoveBorder(h, i, size))
    {
      hide Tiled, Coalesced, Ring, Marked, Splice;
      ghost var b, s := h.blocks, Headers(h.blocks);
      MoveBorderHeaders(h, i, size);
      MoveBorderMarks(h, pool, i, size, used);
      RingNext(next, prev, s, i);
      BorderFresh(h, pool, i, newPtr);
      var nextPtr := next[header];
      UnlinkFree(nextPtr, h.free, IndexOf(h.free, nextPtr));
      UnlinkBlock(nextPtr, s, i + 1);
      used := used[newPtr := false];
      LinkBlock(header, newPtr, Without(s, i + 1), i);
      LinkFree(newPtr, Unlisted(h.free, nextPtr));
    }

    /** The assignments of cutting block i short and giving the rest back. */
    method ShrinkLinks(header: int, newPtr: int, ghost h: Heap, ghost pool: int, ghost i: nat, ghost size: nat)
      returns (merged: int)
      requires Represents(h) && Good(h, pool) && i + 1 < |h.blocks| && h.blocks[i] == Block(header, true)
      requires size % ALIGN == 0 && newPtr == header + HDR + size && newPtr + HDR <= h.blocks[i + 1].addr
      modifies this`next, this`prev, this`nextFree, this`prevFree, this`used
      ensures Represents(if h.blocks[i + 1].used then CutTail(h, i, size) else MoveBorder(h, i, size))
      ensures merged == if h.blocks[i + 1].used then 0 else Size(h.blocks, i + 1)
    {
      hide Tiled, Coalesced, Ring, Marked, Splice;
      ghost var b, s := h.blocks, Headers(h.blocks);
      CutTailMarks(h, pool, i, size, used);
      RightNeighbour(b, pool, i, used);
      NewHeader(h, pool, i, newPtr);
      used := used[newPtr := false];
      LinkBlock(header, newPtr, s, i);
      RingNext(next, prev, Inserted(s, i, newPtr), i + 1);
      merged := 0;
      if !used[next[newPtr]] {
        merged := AbsorbNext(header, newPtr, h, pool, i, size, old(used));
      } else {
        LinkFree(newPtr, h.free);
      }
    }

    /** The new free block in front of a free one absorbs it and joins the free list. */
    method AbsorbNext(header: int, newPtr: int, ghost h: Heap, ghost pool: int, ghost i: nat, ghost size: nat,
                      ghost used0: map<int, bool>) returns (merged: int)
      requires FreeRing(h.free) && Good(h, pool) && i + 1 < |h.blocks| && h.blocks[i] == Block(header, true)
      requires !h.blocks[i + 1].used && newPtr == header + HDR + size && newPtr + HDR <= h.blocks[i + 1].addr
      requires Ring(next, prev, Inserted(Headers(h.blocks), i, newPtr))
      requires Marked(used0, h.blocks) && used == used0[newPtr := false]
      modifies this`next, this`prev, this`nextFree, this`prevFree
      ensures Represents(MoveBorder(h, i, size)) && merged == Size(h.blocks, i + 1)
    {
      hide Tiled, Coalesced, Ring, Marked, Splice;
      ghost var b, s := h.blocks, Inserted(Headers(h.blocks), i, newPtr);
      FreeHasNext(b, pool, i + 1);
      BorderBelow(b, pool, i);
      MoveBorderHeaders(h, i, size);
      MoveBorderMarks(h, pool, i, size, used0);
      BorderUnlisted(h, pool, i, newPtr);
      NewHeader(h, pool, i, newPtr);
      RingNext(next, prev, s, i + 1);
      RingNext(next, prev, s, i + 2);
      var freePtr := next[newPtr];
      merged := next[freePtr] - freePtr - HDR;
      UnlinkBlock(freePtr, s, i + 2);
      UnlinkFree(freePtr, h.free, IndexOf(h.free, freePtr));
      LinkFree(newPtr, Unlisted(h.free, freePtr));
    }

    /** rt_memheap_realloc. */
    method Realloc(ptr: int, request: nat) returns (r: int)
      requires Valid() && Legitimate(heap, ReallocOp(ptr, request))
      modifies this, mem
      ensures Valid() && mem == old(mem) && poolSize == old(poolSize)
      ensures (heap, r) == MemHeapRuns.Step(old(heap), ReallocOp(ptr, request))
      ensures maxUsedSize == Max(old(maxUsedSize), Peak(old(heap), poolSize, ReallocOp(ptr, request)))
      ensures Kept(old(heap).blocks, old(mem[..]), mem[..], ptr - HDR)
      ensures ptr != NULL && r != NULL ==>
        SameBytes(old(mem[..]), mem[..], ptr, r, Min(Live(old(heap).blocks, ptr - HDR).size, Rounded(request)))
    {
      hide Good, Represents, FreeBytes, FirstFit, Live, Kept, SameBytes, MemHeapRuns.Step, Peak, Resize, GrowsInPlace, MemHeapModel.Alloc;
      NullNotLive(heap, poolSize);
      ReallocCases(heap, ptr, request, poolSize);
      if request == 0 {
        KeptSelf(heap.blocks, mem[..], ptr - HDR);
        Free(ptr);
        return NULL;
      }
      var newSize := Rounded(request);
      if ptr == NULL {
        r := Alloc(newSize);
        KeptButOne(old(heap).blocks, old(mem[..]), mem[..], ptr - HDR);
        return;
      }
      LiveBlock(heap, poolSize, ptr - HDR);
      r := ResizeBlock(ptr, newSize, Find(heap.blocks, ptr - HDR));
    }

    /** The part of rt_memheap_realloc for a live block. */
    method ResizeBlock(ptr: int, newSize: nat, ghost i: nat) returns (r: int)
      requires Valid() && i + 1 < |heap.blocks| && heap.blocks[i] == Block(ptr - HDR, true) && Rounded(newSize) == newSize
      modifies this, mem
      ensures Valid() && mem == old(mem) && poolSize == old(poolSize)
      ensures (heap, r) == Resize(old(heap), i, newSize)
      ensures maxUsedSize == Max(old(maxUsedSize), poolSize - FreeBytes(
        if newSize > Size(old(heap).blocks, i) && !GrowsInPlace(old(heap).blocks, i, newSize)
        then MemHeapRuns.Step(old(heap), AllocOp(newSize)).0.blocks else heap.blocks))
      ensures Kept(old(heap).blocks, old(mem[..]), mem[..], ptr - HDR)
      ensures r != NULL ==> SameBytes(old(mem[..]), mem[..], ptr, r, Min(Size(old(heap).blocks, i), newSize))
    {
      hide Tiled, Coalesced, Ring, Marked, Listed, FreeBytes, FirstFit, Live, Kept, Take, Release, MoveBorder, CutTail;
      BlockPayload(heap, poolSize, i);
      var header := ptr - HDR;
      var oldSize := ItemSize(header, i);
      if newSize > oldSize {
        NextHeader(i);
        var nextPtr := next[header];
        if !used[nextPtr] {
          FreeHasNext(heap.blocks, poolSize, i + 1);
          var nextSize := ItemSize(nextPtr, i + 1);
          if nextSize + oldSize > newSize + MINI {
            GrowInPlace(ptr, oldSize, newSize, i);
            return ptr;
          }
        }
        r := Move(ptr, oldSize, newSize, i);
        return;
      }
      if newSize + HDR + MINI >= oldSize {
        Untouched(heap.blocks, mem[..], ptr - HDR, ptr, newSize, oldSize);
        return ptr;
      }
      if !heap.blocks[i + 1].used { FreeHasNext(heap.blocks, poolSize, i + 1); }
      ShrinkInPlace(ptr, oldSize, newSize, i);
      return ptr;
    }

    /** What the headers of block i and of the one behind it say. */
    lemma NextHeader(i: nat)
      requires Valid() && i + 1 < |heap.blocks|
      ensures heap.blocks[i].addr in next && next[heap.blocks[i].addr] == heap.blocks[i + 1].addr
      ensures heap.blocks[i + 1].addr in used && (used[heap.blocks[i + 1].addr] <==> heap.blocks[i + 1].used)
    {
      RingNext(next, prev, Headers(heap.blocks), i);
      RightNeighbour(heap.blocks, poolSize, i, used);
    }

    method GrowInPlace(ptr: int, oldSize: int, newSize: nat, ghost i: nat)
      requires Valid() && i + 2 < |heap.blocks| && heap.blocks[i] == Block(ptr - HDR, true)
      requires oldSize == Size(heap.blocks, i) < newSize == Rounded(newSize) && GrowsInPlace(heap.blocks, i, newSize)
      modifies this, mem
      ensures Valid() && mem == old(mem) && poolSize == old(poolSize) && heap == MoveBorder(old(heap), i, newSize)
      ensures maxUsedSize == Max(old(maxUsedSize), poolSize - availableSize)
      ensures Kept(old(heap).blocks, old(mem[..]), mem[..], ptr - HDR)
      ensures SameBytes(old(mem[..]), mem[..], ptr, ptr, oldSize)
    {
      hide Tiled, Coalesced, Ring, Marked, Listed, FreeBytes, Live, Kept, MoveBorder, SameBytes;
      ghost var h := heap;
      var newPtr := ptr + newSize;
      BlockPayload(h, poolSize, i);
      MoveBorderGood(h, poolSize, i, newSize);
      MoveBorderFreeBytes(h, poolSize, i, newSize);
      BorderFresh(h, poolSize, i, newPtr);
      availableSize := availableSize - (newSize - oldSize);
      RaiseMaxUsed();
      Overwrite(mem, newPtr, HDR);
      HeaderKeeps(h, poolSize, i, i + 2, newPtr, old(mem[..]), mem[..]);
      PrefixKept(old(mem[..]), mem[..], ptr, oldSize, newPtr);
      GrowLinks(ptr - HDR, newPtr, h, poolSize, i, newSize);
      heap := MoveBorder(h, i, newSize);
    }

    method ShrinkInPlace(ptr: int, oldSize: int, newSize: nat, ghost i: nat)
      requires Valid() && i + 1 < |heap.blocks| && heap.blocks[i] == Block(ptr - HDR, true)
      requires oldSize == Size(heap.blocks, i) > newSize + HDR + MINI && newSize == Rounded(newSize)
      modifies this, mem
      ensures Valid() && mem == old(mem) && poolSize == old(poolSize)
      ensures heap == if old(heap).blocks[i + 1].used then CutTail(old(heap), i, newSize) else MoveBorder(old(heap), i, newSize)
      ensures maxUsedSize == old(maxUsedSize)
      ensures Kept(old(heap).blocks, old(mem[..]), mem[..], ptr - HDR)
      ensures SameBytes(old(mem[..]), mem[..], ptr, ptr, newSize)
    {
      hide Tiled, Coalesced, Ring, Marked, Listed, FreeBytes, Live, Kept, MoveBorder, CutTail, SameBytes;
      ghost var h := heap;
      var newPtr := ptr + newSize;
      BlockPayload(h, poolSize, i);
      NewHeader(h, poolSize, i, newPtr);
      Overwrite(mem, newPtr, HDR);
      HeaderKeeps(h, poolSize, i, i + 1, newPtr, old(mem[..]), mem[..]);
      PrefixKept(old(mem[..]), mem[..], ptr, newSize, newPtr);
      var merged := ShrinkLinks(ptr - HDR, newPtr, h, poolSize, i, newSize);
      // the absorbed block leaves the count, the new one enters it with all its bytes
      availableSize := availableSize - merged;
      if h.blocks[i + 1].used {
        CutTailGood(h, poolSize, i, newSize);
        CutTailFreeBytes(h, poolSize, i, newSize);
        CutTailSize(h, i, newSize);
        heap := CutTail(h, i, newSize);
      } else {
        FreeHasNext(h.blocks, poolSize, i + 1);
        BorderBelow(h.blocks, poolSize, i);
        SizeNonNegative(h.blocks, poolSize, i + 1);
        MoveBorderGood(h, poolSize, i, newSize);
        MoveBorderFreeBytes(h, poolSize, i, newSize);
        MoveBorderSize(h, i, newSize);
        heap := MoveBorder(h, i, newSize);
      }
      var size := ItemSize(newPtr, i + 1);
      availableSize := availableSize + size;
    }

    method Move(ptr: int, oldSize: int, newSize: nat, ghost i: nat) returns (r: int)
      requires Valid() && i + 1 < |heap.blocks| && heap.blocks[i] == Block(ptr - HDR, true)
      requires oldSize == Size(heap.blocks, i) < newSize == Rounded(newSize)
      modifies this, mem
      ensures Valid() && mem == old(mem) && poolSize == old(poolSize)
      ensures var (h', moved) := MemHeapRuns.Step(old(heap), AllocOp(newSize));
        r == moved && heap == if moved == NULL then old(heap) else ReleaseAt(h', ptr - HDR)
      ensures maxUsedSize == Max(old(maxUsedSize), poolSize - FreeBytes(MemHeapRuns.Step(old(heap), AllocOp(newSize)).0.blocks))
      ensures Kept(old(heap).blocks, old(mem[..]), mem[..], ptr - HDR)
      ensures r != NULL ==> SameBytes(old(mem[..]), mem[..], ptr, r, oldSize)
    {
      hide Good, Represents, FreeBytes, FirstFit, Live, Kept, ReleaseAt, SameBytes, Allocated, MemHeapModel.Alloc;
      ghost var h := heap;
      BlockPayload(h, poolSize, i);
      NullNotLive(h, poolSize);
      AllocSound(h, poolSize, newSize);
      r := Alloc(newSize);
      ghost var h1, m1 := heap, mem[..];
      KeptButOne(h.blocks, old(mem[..]), m1, ptr - HDR);
      if r != NULL {
        KeptPayload(h, poolSize, old(mem[..]), m1, NULL, ptr - HDR);
        StillLive(h.blocks, h1.blocks, r - HDR, newSize, ptr - HDR);
        PayloadInPool(h1, poolSize, r - HDR);
        Apart(h1, poolSize, r - HDR, ptr - HDR);
        MemCopy(mem, r, ptr, oldSize);
        PayloadKeeps(h1, poolSize, r - HDR, m1, mem[..]);
        KeptByMove(h.blocks, h1.blocks, r - HDR, newSize, old(mem[..]), m1, mem[..], ptr - HDR);
        CopiedBytes(old(mem[..]), m1, mem[..], ptr, r, oldSize);
        Free(ptr);
      }
    }

    /** Any run of legitimate calls: the heap follows the model, and a payload that no call
        names keeps its address, its size and its bytes to the end. */
    method RunAll(ops: seq<Op>)
      requires Valid() && LegitimateRun(heap, ops)
      modifies this, mem
      ensures Valid() && mem == old(mem) && poolSize == old(poolSize)
      ensures heap == Run(old(heap), ops)
      ensures maxUsedSize == Max(old(maxUsedSize), HighWater(old(heap), poolSize, ops))
      ensures forall a :: Live(old(heap).blocks, a) != None && Unnamed(ops, a) ==>
        Live(heap.blocks, a) == Live(old(heap).blocks, a)
        && SameBytes(old(mem[..]), mem[..], a + HDR, a + HDR, Live(heap.blocks, a).size)
    {
      hide Good, Represents, FreeBytes, Live, Kept, SameBytes, MemHeapRuns.Step, HighWater, Peak;
      ghost var h0, m0 := heap, mem[..];
      KeepsAll(h0, poolSize, m0);
      var i := 0;
      while i < |ops|
        invariant 0 <= i <= |ops| && Valid() && mem == old(mem) && poolSize == old(poolSize)
        invariant LegitimateRun(heap, ops[i..]) && Run(heap, ops[i..]) == Run(h0, ops)
        invariant Max(maxUsedSize, HighWater(heap, poolSize, ops[i..])) == Max(old(maxUsedSize), HighWater(h0, poolSize, ops))
        invariant Keeps(h0, m0, heap, mem[..], ops[..i])
      {
        ghost var h, m := heap, mem[..];
        assert ops[i..][0] == ops[i] && ops[i..][1..] == ops[i + 1..];
        StepGood(h, poolSize, ops[i]);
        HighWaterStep(h, poolSize, ops[i..], maxUsedSize);
        match ops[i] {
          case AllocOp(request) => var _ := Alloc(request);
          case ReallocOp(ptr, request) => var _ := Realloc(ptr, request);
          case FreeOp(ptr) =>
            KeptSelf(h.blocks, m, ptr - HDR);
            Free(ptr);
        }
        assert heap == MemHeapRuns.Step(h, ops[i]).0;
        KeepsStep(h0, m0, h, poolSize, m, mem[..], ops, i);
        i := i + 1;
      }
      assert ops[..|ops|] == ops && ops[|ops|..] == [];
      HighWaterStep(heap, poolSize, [], maxUsedSize);
    }
  }

  lemma NotHeader(h: Heap, pool: int)
    requires Good(h, pool)
    ensures forall k :: 0 <= k < |h.free| ==> h.free[k] != HEADER
  {
    forall k | 0 <= k < |h.free|
      ensures h.free[k] != HEADER
    {
      FreeEntry(h, pool, k);
    }
  }

  /** One step of the search in the free list. */
  lemma FitStep(h: Heap, pool: int, size: int, k: nat)
    requires Good(h, pool) && k <= |h.free|
    ensures k == |h.free| ==> FirstFit(h, size, k) == k
    ensures k < |h.free| ==> h.free[k] in Addrs(h.blocks) && Find(h.blocks, h.free[k]) + 1 < |h.blocks|
    ensures k < |h.free| ==> SizeAt(h.blocks, h.free[k]) == Size(h.blocks, Find(h.blocks, h.free[k]))
    ensures k < |h.free| && SizeAt(h.blocks, h.free[k]) >= size ==> FirstFit(h, size, k) == k
    ensures k < |h.free| && SizeAt(h.blocks, h.free[k]) < size ==> FirstFit(h, size, k) == FirstFit(h, size, k + 1)
  {
    if k < |h.free| { FreeEntry(h, pool, k); }
  }
}
