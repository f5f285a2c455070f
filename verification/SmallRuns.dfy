/** What rt_malloc, rt_realloc and rt_free of mem.c keep, over all runs. */
module SmallRuns {
  import opened Blocks
  import opened SmallModel

  // ---- where a search begins ----

  lemma FindIs(b: seq<Block>, m: int, i: nat)
    requires Tiled(b, m) && i < |b|
    ensures b[i].addr in Addrs(b) && Find(b, b[i].addr) == i
  {
    assert b[i].addr in Addrs(b);
    AddrsDiffer(b, m, i, Find(b, b[i].addr));
  }

  lemma LfreeFound(h: Heap, m: int)
    requires Good(h, m)
    ensures h.lfree in Addrs(h.blocks)
    ensures var k := Find(h.blocks, h.lfree); k == |h.blocks| - 1 || !h.blocks[k].used
  {
    var b := h.blocks;
    if h.lfree == m + HDR {
      FindIs(b, m, |b| - 1);
    } else {
      var i :| 0 <= i < |b| && b[i] == Block(h.lfree, false);
      FindIs(b, m, i);
    }
  }

  predicate FitsAt(b: seq<Block>, i: nat, size: int) {
    i + 1 < |b| && !b[i].used && Extent(b, i) >= HDR + size
  }

  lemma {:induction false} FirstFitIsFirst(b: seq<Block>, m: int, k: nat, size: int, limit: int)
    requires Tiled(b, m) && k < |b|
    ensures var r := FirstFit(b, k, size, limit); forall i :: k <= i < r && i < |b| && b[i].addr < limit ==> !FitsAt(b, i, size)
    decreases |b| - k
  {
    if b[k].addr >= limit {
      assert forall i :: k < i < |b| ==> b[k].addr < b[i].addr;
    } else if k + 1 < |b| && !FitsAt(b, k, size) {
      FirstFitIsFirst(b, m, k + 1, size, limit);
    }
  }

  /** The bound of the loop passes over the last block when it fits exactly, and over no other block that fits. */
  lemma BelowLimit(b: seq<Block>, m: int, i: nat, size: int)
    requires Tiled(b, m) && FitsAt(b, i, size)
    ensures b[i].addr < m - size <==> i + 2 < |b| || Extent(b, i) > HDR + size
  {
    assert i + 2 < |b| ==> b[i + 1].addr + HDR <= b[|b| - 1].addr;
  }

  // ---- malloc ----

  /** A block of e bytes more at a. */
  ghost predicate Gains(b: seq<Block>, t: seq<Block>, a: int, e: int) {
    && (forall x :: !Holds(b, a, x))
    && forall c, x :: Holds(t, c, x) <==> (if c == a then x == e else Holds(b, c, x))
  }

  ghost predicate GainsRoom(b: seq<Block>, t: seq<Block>, a: int, room: int) {
    exists e :: e >= room && Gains(b, t, a, e)
  }

  ghost predicate Loses(b: seq<Block>, t: seq<Block>, a: int) {
    forall c, x :: Holds(t, c, x) <==> c != a && Holds(b, c, x)
  }

  ghost predicate Resizes(b: seq<Block>, t: seq<Block>, a: int, e: int) {
    forall c, x :: Holds(t, c, x) <==> (if c == a then x == e else Holds(b, c, x))
  }

  function Given(b: seq<Block>, k: nat, size: int): int
    requires k + 1 < |b|
  {
    if Splits(b, k, size) then HDR + size else Extent(b, k)
  }

  lemma NotHeld(b: seq<Block>, m: int, k: nat, x: int)
    requires Tiled(b, m) && k < |b| && !b[k].used
    ensures !Holds(b, b[k].addr, x)
  {
    if Holds(b, b[k].addr, x) {
      var j :| 0 <= j < |b| - 1 && b[j] == Block(b[k].addr, true) && Extent(b, j) == x;
      AddrsDiffer(b, m, j, k);
    }
  }

  lemma TakeBlocks(h: Heap, m: int, k: nat, size: nat)
    requires Good(h, m) && FitsAt(h.blocks, k, size) && size % ALIGN == 0
    ensures var t := Take(h, k, size).blocks; Tiled(t, m) && EndRoom(t) && Coalesced(t) && |t| >= |h.blocks| && t[k] == Block(h.blocks[k].addr, true)
    ensures UsedBytes(Take(h, k, size).blocks) == UsedBytes(h.blocks) + Given(h.blocks, k, size)
  {
    hide Tiled, EndRoom, Coalesced, Cut, IsFree, UsedBytes, NextFree, Max;
    var b, a := h.blocks, h.blocks[k].addr;
    if Splits(b, k, size) {
      var n := a + HDR + size;
      CutAligned(b, m, k, size);
      CutTiled(b, m, k, n);
      CutEnd(b, k, n);
      CutUsedBytes(b, k, n);
      CutAt(b, k, n, k);
      SetEnd(Cut(b, k, n), k, true);
      CutAt(b, k, n, k + 1);
      SetTiled(Cut(b, k, n), m, k, true);
      SetUsedBytes(Cut(b, k, n), k, true);
      TakeCoalesced(b, k, n);
    } else {
      SetTiled(b, m, k, true);
      SetEnd(b, k, true);
      SetUsedBytes(b, k, true);
      SetCoalesced(b, k);
    }
  }

  /** Where a cut behind an aligned payload lies. */
  lemma CutAligned(b: seq<Block>, m: int, k: nat, size: nat)
    requires Tiled(b, m) && k < |b| && size % ALIGN == 0
    ensures (b[k].addr + HDR + size) % ALIGN == 0
  {
    hide Tiled;
    BlockAligned(b, m, k);
    AlignedSum(b[k].addr, size);
  }

  lemma BlockAligned(b: seq<Block>, m: int, k: nat)
    requires Tiled(b, m) && k < |b|
    ensures b[k].addr % ALIGN == 0
  {}

  lemma AlignedSum(a: int, size: nat)
    requires a % ALIGN == 0 && size % ALIGN == 0
    ensures (a + HDR + size) % ALIGN == 0
  {}

  lemma SetCoalesced(b: seq<Block>, k: nat)
    requires Coalesced(b) && k < |b|
    ensures Coalesced(Set(b, k, true))
  {
    var t := Set(b, k, true);
    forall j | 0 <= j < |t| - 1
      ensures t[j].used || t[j + 1].used
    {
      assert b[j].used || b[j + 1].used;
    }
  }

  lemma TakeCoalesced(b: seq<Block>, k: nat, n: int)
    requires Coalesced(b) && k + 1 < |b| && !b[k].used
    ensures |Cut(b, k, n)| == |b| + 1 && Coalesced(Set(Cut(b, k, n), k, true))
  {
    hide Cut;
    var c := Cut(b, k, n);
    CutAt(b, k, n, 0);
    var t := Set(c, k, true);
    forall j | 0 <= j < |t| - 1
      ensures t[j].used || t[j + 1].used
    {
      CutAt(b, k, n, j);
      CutAt(b, k, n, j + 1);
      if j > k + 1 { assert b[j - 1].used || b[j].used; }
      if j < k { assert b[j].used || b[j + 1].used; }
      assert b[k].used || b[k + 1].used;
    }
  }

  lemma TakeHolds(h: Heap, m: int, k: nat, size: nat, c: int, x: int)
    requires Good(h, m) && FitsAt(h.blocks, k, size) && size % ALIGN == 0
    ensures Holds(Take(h, k, size).blocks, c, x) <==>
            if c == h.blocks[k].addr then x == Given(h.blocks, k, size) else Holds(h.blocks, c, x)
  {
    hide Tiled, Coalesced, Cut, IsFree, UsedBytes, Holds;
    var b, a := h.blocks, h.blocks[k].addr;
    if Splits(b, k, size) {
      var n := a + HDR + size;
      CutAligned(b, m, k, size);
      CutHolds(b, m, k, n, c, x);
      CutTiled(b, m, k, n);
      CutAt(b, k, n, k);
      CutAt(b, k, n, k + 1);
      SetHolds(Cut(b, k, n), m, k, true, c, x);
    } else {
      SetHolds(b, m, k, true, c, x);
    }
  }

  lemma SetFree(b: seq<Block>, m: int, k: nat, used: bool, c: int)
    requires Tiled(b, m) && k < |b|
    ensures IsFree(Set(b, k, used), c) <==> if c == b[k].addr then !used else IsFree(b, c)
  {
    var t := Set(b, k, used);
    if IsFree(t, c) {
      var j :| 0 <= j < |t| && t[j] == Block(c, false);
      AddrsDiffer(b, m, j, k);
      assert j != k ==> b[j] == t[j];
    }
    if IsFree(b, c) {
      var j :| 0 <= j < |b| && b[j] == Block(c, false);
      assert j != k ==> t[j] == b[j];
    }
    assert t[k] == Block(b[k].addr, used);
  }

  lemma CutFree(b: seq<Block>, k: nat, n: int, c: int)
    requires k < |b|
    ensures IsFree(Cut(b, k, n), c) <==> c == n || IsFree(b, c)
  {
    hide Cut;
    var t := Cut(b, k, n);
    CutAt(b, k, n, k + 1);
    if IsFree(t, c) {
      var j :| 0 <= j < |t| && t[j] == Block(c, false);
      CutAt(b, k, n, j);
      if j != k + 1 { assert b[if j <= k then j else j - 1] == Block(c, false); }
    }
    if IsFree(b, c) {
      var j :| 0 <= j < |b| && b[j] == Block(c, false);
      CutAt(b, k, n, if j <= k then j else j + 1);
      assert t[if j <= k then j else j + 1] == Block(c, false);
    }
    if c == n { assert t[k + 1] == Block(c, false); }
  }

  lemma JoinFree(b: seq<Block>, m: int, i: nat, c: int)
    requires Tiled(b, m) && i + 2 < |b| && !b[i].used && !b[i + 1].used
    ensures IsFree(Join(b, i), c) <==> c != b[i + 1].addr && IsFree(b, c)
  {
    hide Join, Tiled;
    var t := Join(b, i);
    JoinAt(b, i, 0);
    if IsFree(t, c) {
      var j :| 0 <= j < |t| && t[j] == Block(c, false);
      JoinAt(b, i, j);
      var k := if j <= i then j else j + 1;
      AddrsDiffer(b, m, k, i + 1);
      assert b[k] == Block(c, false);
    }
    if IsFree(b, c) && c != b[i + 1].addr {
      var j :| 0 <= j < |b| && b[j] == Block(c, false);
      var k := if j <= i then j else j - 1;
      JoinAt(b, i, k);
      assert t[k] == Block(c, false);
    }
  }

  /** What is free after a block was handed out. */
  lemma TakeFree(h: Heap, m: int, k: nat, size: nat, c: int)
    requires Tiled(h.blocks, m) && FitsAt(h.blocks, k, size) && size % ALIGN == 0
    ensures var a := h.blocks[k].addr; IsFree(Take(h, k, size).blocks, c) <==>
              (c != a && IsFree(h.blocks, c)) || (Splits(h.blocks, k, size) && c == a + HDR + size)
  {
    hide Cut, IsFree, UsedBytes, Tiled;
    var b := h.blocks;
    CutAligned(b, m, k, size);
    if Splits(b, k, size) {
      var n := b[k].addr + HDR + size;
      CutTiled(b, m, k, n);
      CutAt(b, k, n, k);
      CutFree(b, k, n, c);
      SetFree(Cut(b, k, n), m, k, true, c);
    } else {
      SetFree(b, m, k, true, c);
    }
  }

  lemma TakeGood(h: Heap, m: int, k: nat, size: nat)
    requires Good(h, m) && FitsAt(h.blocks, k, size) && size % ALIGN == 0
    ensures Good(Take(h, k, size), m) && Gains(h.blocks, Take(h, k, size).blocks, h.blocks[k].addr, Given(h.blocks, k, size))
  {
    hide Tiled, Coalesced, IsFree, Holds;
    var b, t, a := h.blocks, Take(h, k, size).blocks, h.blocks[k].addr;
    TakeBlocks(h, m, k, size);
    if h.lfree == a {
      NextIsFree(t, m, k);
    } else if h.lfree != m + HDR {
      TakeFree(h, m, k, size, h.lfree);
    }
    forall x
      ensures !Holds(b, a, x)
    {
      NotHeld(b, m, k, x);
    }
    forall c, x
      ensures Holds(t, c, x) <==> (if c == a then x == Given(b, k, size) else Holds(b, c, x))
    {
      TakeHolds(h, m, k, size, c, x);
    }
  }

  lemma NextIsFree(b: seq<Block>, m: int, k: nat)
    requires Tiled(b, m) && k < |b|
    ensures b[NextFree(b, k)].addr == m + HDR || IsFree(b, b[NextFree(b, k)].addr)
  {
    var r := NextFree(b, k);
    if r < |b| - 1 { assert b[r] == Block(b[r].addr, false); }
  }

  /** Block i fits, but exactly, and is the last one: the search passes over it. */
  predicate LastExact(b: seq<Block>, i: nat, size: int) { i + 2 == |b| && Extent(b, i) == HDR + size }

  /** No block from lfree on will do: all that are large enough fit exactly at the end of the heap. */
  ghost predicate NoRoom(h: Heap, m: int, n: nat) {
    forall i: nat :: FitsAt(h.blocks, i, Needed(n)) && h.lfree <= h.blocks[i].addr ==> LastExact(h.blocks, i, Needed(n))
  }

  /** rt_malloc fails exactly for zero, for sizes above the whole heap, and when there is no room in that sense. */
  lemma MallocSound(h: Heap, m: int, n: nat)
    requires Good(h, m)
    ensures h.lfree in Addrs(h.blocks)
    ensures var (t, p) := Malloc(h, m, n); p == NULL <==> n == 0 || Up(n) > m || NoRoom(h, m, n)
    ensures var (t, p) := Malloc(h, m, n); p == NULL ==> t == h
    ensures var (t, p) := Malloc(h, m, n); p != NULL ==> Good(t, m)
    ensures var (t, p) := Malloc(h, m, n); p != NULL ==> GainsRoom(h.blocks, t.blocks, p - HDR, HDR + Needed(n))
  {
    hide Gains, Take, Tiled, Coalesced, IsFree;
    LfreeFound(h, m);
    if n != 0 && Up(n) <= m {
      var b, size := h.blocks, Needed(n);
      var k := Find(b, h.lfree);
      var r := FirstFit(b, k, size, m - size);
      if r == |b| {
        SearchFails(h, m, n, k);
      } else {
        NonNegative(b, m, r);
        FirstFitBelow(h, m, n, k, r);
        TakeGood(h, m, r, size);
        assert Gains(b, Take(h, r, size).blocks, b[r].addr, Given(b, r, size));
      }
    }
  }

  /** Block k is the lowest free one from lfree on that is large enough, the one that is passed over apart. */
  ghost predicate IsLowest(h: Heap, n: nat, k: nat) {
    && FitsAt(h.blocks, k, Needed(n)) && h.lfree <= h.blocks[k].addr
    && forall i: nat :: FitsAt(h.blocks, i, Needed(n)) && h.lfree <= h.blocks[i].addr && !LastExact(h.blocks, i, Needed(n)) ==>
         h.blocks[k].addr <= h.blocks[i].addr
  }

  /** Block k is handed out, all of it only if what is left over is too small for a block. */
  ghost predicate HandsOut(h: Heap, t: seq<Block>, k: nat, size: nat, a: int) {
    && k + 1 < |h.blocks| && a == h.blocks[k].addr
    && Gains(h.blocks, t, a, if Extent(h.blocks, k) < HDR + size + HDR + MINI then Extent(h.blocks, k) else HDR + size)
  }

  /** malloc hands out the lowest block that will do. */
  lemma MallocFirst(h: Heap, m: int, n: nat)
    requires Good(h, m)
    ensures h.lfree in Addrs(h.blocks)
    ensures var (t, p) := Malloc(h, m, n);
            p != NULL ==> exists k: nat :: IsLowest(h, n, k) && HandsOut(h, t.blocks, k, Needed(n), p - HDR)
  {
    hide Gains, Take, Tiled, Coalesced, IsFree, IsLowest, HandsOut;
    LfreeFound(h, m);
    if n != 0 && Up(n) <= m {
      var b, size := h.blocks, Needed(n);
      var k := Find(b, h.lfree);
      var r := FirstFit(b, k, size, m - size);
      if r != |b| {
        TakeHandsOut(h, m, n, k, r);
        FirstFitLowest(h, m, n, k, r);
      }
    }
  }

  lemma TakeHandsOut(h: Heap, m: int, n: nat, k: nat, r: nat)
    requires Good(h, m) && k < |h.blocks| && h.blocks[k].addr == h.lfree
    requires r < |h.blocks| && r == FirstFit(h.blocks, k, Needed(n), m - Needed(n))
    ensures r + 1 < |h.blocks| && HandsOut(h, Take(h, r, Needed(n)).blocks, r, Needed(n), h.blocks[r].addr)
  {
    hide Gains, Take, Tiled, Coalesced, IsFree;
    FirstFitBelow(h, m, n, k, r);
    TakeGood(h, m, r, Needed(n));
  }

  lemma FirstFitLowest(h: Heap, m: int, n: nat, k: nat, r: nat)
    requires Good(h, m) && k < |h.blocks| && h.blocks[k].addr == h.lfree
    requires r < |h.blocks| && r == FirstFit(h.blocks, k, Needed(n), m - Needed(n))
    ensures IsLowest(h, n, r)
  {
    hide Tiled, Coalesced, IsFree;
    var b := h.blocks;
    FirstFitIsFirst(b, m, k, Needed(n), m - Needed(n));
    Ordered(b, m, r, k);
    forall i: nat | FitsAt(b, i, Needed(n)) && h.lfree <= b[i].addr && !LastExact(b, i, Needed(n))
      ensures b[r].addr <= b[i].addr
    {
      BelowLimit(b, m, i, Needed(n));
      Ordered(b, m, i, k);
      Ordered(b, m, i, r);
    }
  }

  lemma NonNegative(b: seq<Block>, m: int, i: nat)
    requires Tiled(b, m) && i < |b|
    ensures b[i].addr >= 0
  {}

  lemma SearchFails(h: Heap, m: int, n: nat, k: nat)
    requires Good(h, m) && k < |h.blocks| && h.blocks[k].addr == h.lfree
    requires FirstFit(h.blocks, k, Needed(n), m - Needed(n)) == |h.blocks|
    ensures NoRoom(h, m, n)
  {
    hide Tiled, Coalesced, IsFree;
    FirstFitIsFirst(h.blocks, m, k, Needed(n), m - Needed(n));
    forall i: nat | FitsAt(h.blocks, i, Needed(n)) && h.lfree <= h.blocks[i].addr
      ensures LastExact(h.blocks, i, Needed(n))
    {
      BelowLimit(h.blocks, m, i, Needed(n));
      Ordered(h.blocks, m, i, k);
    }
  }

  lemma Ordered(b: seq<Block>, m: int, i: nat, j: nat)
    requires Tiled(b, m) && i < |b| && j < |b|
    ensures b[i].addr < b[j].addr <==> i < j
  {}

  lemma FirstFitBelow(h: Heap, m: int, n: nat, k: nat, r: nat)
    requires Good(h, m) && k < |h.blocks| && h.blocks[k].addr == h.lfree
    requires r < |h.blocks| && r == FirstFit(h.blocks, k, Needed(n), m - Needed(n))
    ensures !NoRoom(h, m, n) && FitsAt(h.blocks, r, Needed(n))
  {
    hide Tiled, Coalesced, IsFree;
    BelowLimit(h.blocks, m, r, Needed(n));
    Ordered(h.blocks, m, r, k);
  }

  ghost function Malloced(h: Heap, m: int, n: nat): (Heap, int)
    requires Good(h, m)
  {
    LfreeFound(h, m);
    Malloc(h, m, n)
  }

  ghost function Resized(h: Heap, m: int, i: nat, n: nat): (Heap, int)
    requires Good(h, m) && i + 1 < |h.blocks|
  {
    LfreeFound(h, m);
    Resize(h, m, i, n)
  }

  // ---- plug_holes ----

  /** At most the neighbours of block i may have to be joined with it. */
  ghost predicate CoalescedBut(b: seq<Block>, i: nat) {
    forall j :: 0 <= j < |b| - 1 && j != i && j + 1 != i ==> b[j].used || b[j + 1].used
  }

  ghost predicate Same(b: seq<Block>, t: seq<Block>) {
    forall c, x :: Holds(t, c, x) <==> Holds(b, c, x)
  }

  ghost predicate LfreeOk(b: seq<Block>, m: int, lfree: int) {
    lfree == m + HDR || IsFree(b, lfree)
  }

  /** Joining block i with a free next block. */
  lemma JoinOk(b: seq<Block>, m: int, i: nat, lfree: int)
    requires Tiled(b, m) && EndRoom(b) && i + 2 < |b| && !b[i].used && !b[i + 1].used && LfreeOk(b, m, lfree)
    ensures Tiled(Join(b, i), m) && EndRoom(Join(b, i)) && Same(b, Join(b, i)) && UsedBytes(Join(b, i)) == UsedBytes(b)
    ensures LfreeOk(Join(b, i), m, if lfree == b[i + 1].addr then b[i].addr else lfree)
  {
    hide Holds, Tiled, EndRoom, Join, LfreeOk, UsedBytes;
    var t := Join(b, i);
    JoinTiled(b, m, i);
    JoinEnd(b, m, i);
    JoinUsedBytes(b, i);
    JoinLfree(b, m, i, lfree);
    forall c, x
      ensures Holds(t, c, x) <==> Holds(b, c, x)
    {
      JoinHolds(b, i, c, x);
    }
  }

  lemma JoinLfree(b: seq<Block>, m: int, i: nat, lfree: int)
    requires Tiled(b, m) && i + 2 < |b| && !b[i].used && !b[i + 1].used && LfreeOk(b, m, lfree)
    ensures LfreeOk(Join(b, i), m, if lfree == b[i + 1].addr then b[i].addr else lfree)
  {
    hide Join, Tiled;
    AddrsDiffer(b, m, i, i + 1);
    assert IsFree(b, b[i].addr) by { assert b[i] == Block(b[i].addr, false); }
    JoinFree(b, m, i, if lfree == b[i + 1].addr then b[i].addr else lfree);
  }

  /** plug_holes restores that no two neighbours are free, from one block that may have free neighbours. */
  lemma PlugSound(b: seq<Block>, m: int, lfree: int, i: nat)
    requires Tiled(b, m) && EndRoom(b) && i + 1 < |b| && !b[i].used && CoalescedBut(b, i) && LfreeOk(b, m, lfree)
    ensures var p := Plug(b, lfree, i);
            Tiled(p.blocks, m) && EndRoom(p.blocks) && Coalesced(p.blocks) && LfreeOk(p.blocks, m, p.lfree)
    ensures var p := Plug(b, lfree, i); Same(b, p.blocks) && UsedBytes(p.blocks) == UsedBytes(b)
  {
    hide Tiled, EndRoom, LfreeOk, Holds;
    var f := Forward(b, lfree, i);
    EndUsed(b, m);
    if i + 2 < |b| && !b[i + 1].used { JoinOk(b, m, i, lfree); }
    ForwardCoalesced(b, lfree, i);
    if i > 0 && !f.blocks[i - 1].used { JoinOk(f.blocks, m, i - 1, f.lfree); }
    BackwardCoalesced(f.blocks, f.lfree, i);
  }

  lemma EndUsed(b: seq<Block>, m: int)
    requires Tiled(b, m)
    ensures |b| >= 2 && b[|b| - 1].used
  {}

  lemma ForwardCoalesced(b: seq<Block>, lfree: int, i: nat)
    requires i + 1 < |b| && !b[i].used && CoalescedBut(b, i) && b[|b| - 1].used
    ensures var f := Forward(b, lfree, i).blocks;
            && i + 1 < |f| && f[i] == b[i] && (i > 0 ==> f[i - 1] == b[i - 1]) && f[i + 1].used
            && CoalescedBut(f, i) && f[|f| - 1].used
  {
    var f := Forward(b, lfree, i).blocks;
    if i + 2 < |b| && !b[i + 1].used {
      assert b[i + 1].used || b[i + 2].used;
      forall j | 0 <= j < |f| - 1 && j != i && j + 1 != i
        ensures f[j].used || f[j + 1].used
      {
        JoinAt(b, i, j);
        JoinAt(b, i, j + 1);
        if j < i { assert b[j].used || b[j + 1].used; } else { assert b[j + 1].used || b[j + 2].used; }
      }
    }
  }

  lemma BackwardCoalesced(b: seq<Block>, lfree: int, i: nat)
    requires i + 1 < |b| && !b[i].used && CoalescedBut(b, i) && b[i + 1].used
    ensures Coalesced(Backward(b, lfree, i).blocks)
  {
    var f := Backward(b, lfree, i).blocks;
    forall j | 0 <= j < |f| - 1
      ensures f[j].used || f[j + 1].used
    {
      if i > 0 && !b[i - 1].used {
        JoinAt(b, i - 1, j);
        JoinAt(b, i - 1, j + 1);
        if j < i - 1 { assert b[j].used || b[j + 1].used; } else { assert b[j + 1].used || b[j + 2].used; }
      }
    }
  }

  // ---- free ----

  lemma ReleaseGood(h: Heap, m: int, i: nat)
    requires Good(h, m) && i + 1 < |h.blocks| && h.blocks[i].used
    ensures Good(Release(h, i), m) && Loses(h.blocks, Release(h, i).blocks, h.blocks[i].addr)
    ensures UsedBytes(Release(h, i).blocks) == UsedBytes(h.blocks) - Extent(h.blocks, i)
  {
    hide Plug, Holds, Tiled, EndRoom;
    var b := h.blocks;
    var t, a := Set(b, i, false), b[i].addr;
    SetTiled(b, m, i, false);
    SetEnd(b, i, false);
    SetUsedBytes(b, i, false);
    SetFree(b, m, i, false, a);
    SetFree(b, m, i, false, h.lfree);
    PlugSound(t, m, if a < h.lfree then a else h.lfree, i);
    forall c, x
      ensures Holds(t, c, x) <==> c != a && Holds(b, c, x)
    {
      SetHolds(b, m, i, false, c, x);
    }
  }

  // ---- realloc ----

  lemma ShrinkGood(h: Heap, m: int, i: nat, size: nat)
    requires Good(h, m) && i + 1 < |h.blocks| && h.blocks[i].used && Shrinks(h.blocks, i, size) && size % ALIGN == 0
    ensures Good(Shrink(h, i, size), m) && Resizes(h.blocks, Shrink(h, i, size).blocks, h.blocks[i].addr, HDR + size)
    ensures UsedBytes(Shrink(h, i, size).blocks) == UsedBytes(h.blocks) - (Extent(h.blocks, i) - HDR - size)
  {
    hide Plug, Holds, Tiled, EndRoom, Cut, Coalesced, LfreeOk;
    var b, a := h.blocks, h.blocks[i].addr;
    var n := a + HDR + size;
    var t := Cut(b, i, n);
    CutAligned(b, m, i, size);
    CutTiled(b, m, i, n);
    CutEnd(b, i, n);
    CutUsedBytes(b, i, n);
    CutCoalesced(b, i, n);
    LfreeIsOk(h, m);
    CutLfree(b, m, i, n, h.lfree);
    LfreeMeans(Shrink(h, i, size), m);
    CutAt(b, i, n, i + 1);
    PlugSound(t, m, h.lfree, i + 1);
    forall c, x
      ensures Holds(t, c, x) <==> (if c == a then x == HDR + size else Holds(b, c, x))
    {
      CutHolds(b, m, i, n, c, x);
    }
  }

  lemma CutCoalesced(b: seq<Block>, i: nat, n: int)
    requires Coalesced(b) && i + 1 < |b|
    ensures CoalescedBut(Cut(b, i, n), i + 1)
  {
    hide Cut;
    var t := Cut(b, i, n);
    CutAt(b, i, n, 0);
    forall j | 0 <= j < |t| - 1 && j != i + 1 && j != i
      ensures t[j].used || t[j + 1].used
    {
      CutAt(b, i, n, j);
      CutAt(b, i, n, j + 1);
      if j > i { assert b[j - 1].used || b[j].used; }
    }
  }

  lemma LfreeIsOk(h: Heap, m: int)
    requires Good(h, m)
    ensures LfreeOk(h.blocks, m, h.lfree)
  {}

  lemma LfreeMeans(h: Heap, m: int)
    ensures LfreeOk(h.blocks, m, h.lfree) ==> h.lfree == m + HDR || IsFree(h.blocks, h.lfree)
  {}

  lemma CutLfree(b: seq<Block>, m: int, i: nat, n: int, lfree: int)
    requires i < |b| && LfreeOk(b, m, lfree)
    ensures LfreeOk(Cut(b, i, n), m, lfree)
  {
    if lfree != m + HDR { CutFree(b, i, n, lfree); }
  }

  /** The blocks after a resize: a is gone, and at a' there is one with at least the given extent. */
  ghost predicate Replaced(b: seq<Block>, t: seq<Block>, a: int, a': int, room: int) {
    && (a' != a ==> forall x :: !Holds(b, a', x))
    && exists e :: e >= room && Placed(b, t, a, a', e)
  }

  ghost predicate Placed(b: seq<Block>, t: seq<Block>, a: int, a': int, e: int) {
    forall c, x :: Holds(t, c, x) <==> (if c == a' then x == e else c != a && Holds(b, c, x))
  }

  lemma HeldAt(b: seq<Block>, m: int, a: int, x: int)
    requires Tiled(b, m) && Holds(b, a, x)
    ensures a in Addrs(b) && Find(b, a) + 1 < |b| && b[Find(b, a)] == Block(a, true) && Extent(b, Find(b, a)) == x
  {
    var j :| 0 <= j < |b| - 1 && b[j] == Block(a, true) && Extent(b, j) == x;
    FindIs(b, m, j);
  }

  lemma HoldsOne(b: seq<Block>, m: int, i: nat, x: int)
    requires Tiled(b, m) && i + 1 < |b| && b[i].used
    ensures Holds(b, b[i].addr, x) <==> x == Extent(b, i)
  {
    var a := b[i].addr;
    if Holds(b, a, x) {
      var j :| 0 <= j < |b| - 1 && b[j] == Block(a, true) && Extent(b, j) == x;
      AddrsDiffer(b, m, i, j);
    }
    assert b[i] == Block(a, true);
  }

  lemma StaysPlaced(b: seq<Block>, m: int, i: nat)
    requires Tiled(b, m) && i + 1 < |b| && b[i].used
    ensures Placed(b, b, b[i].addr, b[i].addr, Extent(b, i))
  {
    hide Holds;
    forall x
      ensures Holds(b, b[i].addr, x) <==> x == Extent(b, i)
    {
      HoldsOne(b, m, i, x);
    }
  }

  /** rt_realloc keeps the block, or moves it, or changes nothing. */
  lemma ResizeSound(h: Heap, m: int, i: nat, n: nat)
    requires Good(h, m) && i + 1 < |h.blocks| && h.blocks[i].used
    ensures h.lfree in Addrs(h.blocks)
    ensures var (t, r) := Resize(h, m, i, n); Good(t, m) && (r == NULL ==> t == h)
    ensures var (t, r) := Resize(h, m, i, n); r != NULL ==> Replaced(h.blocks, t.blocks, h.blocks[i].addr, r - HDR, HDR + Up(n))
    ensures var (t, r) := Resize(h, m, i, n); r == NULL <==>
              Up(n) > m || (Extent(h.blocks, i) != HDR + Up(n) && !Shrinks(h.blocks, i, Up(n)) && (n == 0 || NoRoom(h, m, Up(n))))
  {
    hide Tiled, Coalesced, LfreeOk, IsFree, Malloc, Shrink, Release, Holds;
    var b, a, size := h.blocks, h.blocks[i].addr, Up(n);
    LfreeFound(h, m);
    NonNegative(b, m, i);
    if size <= m {
      if Extent(b, i) == HDR + size {
        StaysPlaced(b, m, i);
      } else if Shrinks(b, i, size) {
        ShrinkGood(h, m, i, size);
        assert Placed(b, Shrink(h, i, size).blocks, a, a, HDR + size);
      } else {
        MallocSound(h, m, size);
        if Malloc(h, m, size).1 != NULL { MoveSound(h, m, i, size); }
      }
    }
  }

  /** The block stays exactly if it has the size asked for, or so much more that the rest makes a block of its own, which
      is then given back: a block that stays has exactly the rounded size. */
  lemma ResizePlace(h: Heap, m: int, i: nat, n: nat)
    requires Good(h, m) && i + 1 < |h.blocks| && h.blocks[i].used
    ensures h.lfree in Addrs(h.blocks)
    ensures var (t, r), e := Resize(h, m, i, n), Extent(h.blocks, i);
      && (r == h.blocks[i].addr + HDR <==> Up(n) <= m && (e == HDR + Up(n) || e > HDR + Up(n) + HDR + MINI))
      && (r == h.blocks[i].addr + HDR ==>
            && Placed(h.blocks, t.blocks, h.blocks[i].addr, h.blocks[i].addr, HDR + Up(n))
            && UsedBytes(t.blocks) == UsedBytes(h.blocks) - (e - HDR - Up(n)))
  {
    hide Tiled, Coalesced, LfreeOk, IsFree, Malloc, Shrink, Release, Holds, UsedBytes, ReleaseAt;
    var b, size := h.blocks, Up(n);
    LfreeFound(h, m);
    NonNegative(b, m, i);
    if size <= m {
      if Extent(b, i) == HDR + size {
        StaysPlaced(b, m, i);
      } else if Shrinks(b, i, size) {
        ShrinkGood(h, m, i, size);
      } else {
        MallocSound(h, m, size);
        HoldsOne(b, m, i, Extent(b, i));
      }
    }
  }

  lemma MoveSound(h: Heap, m: int, i: nat, size: nat)
    requires Good(h, m) && i + 1 < |h.blocks| && h.blocks[i].used && h.lfree in Addrs(h.blocks) && Malloc(h, m, size).1 != NULL
    ensures var (t, r) := Malloc(h, m, size); Good(ReleaseAt(t, h.blocks[i].addr), m)
    ensures var (t, r) := Malloc(h, m, size);
            Replaced(h.blocks, ReleaseAt(t, h.blocks[i].addr).blocks, h.blocks[i].addr, r - HDR, HDR + size)
  {
    hide Tiled, Coalesced, LfreeOk, IsFree, Malloc, Release, Holds;
    var b, a := h.blocks, h.blocks[i].addr;
    MallocSound(h, m, size);
    var (t, r) := Malloc(h, m, size);
    var e :| e >= HDR + Needed(size) && Gains(b, t.blocks, r - HDR, e);
    HoldsOne(b, m, i, Extent(b, i));
    HeldAt(t.blocks, m, a, Extent(b, i));
    ReleaseGood(t, m, Find(t.blocks, a));
    assert Placed(b, ReleaseAt(t, a).blocks, a, r - HDR, e);
  }

  // ---- where free blocks are ----

  /** No free block lies below lfree. */
  ghost predicate LowFree(h: Heap) {
    Below(h.blocks, h.lfree)
  }

  ghost predicate Below(b: seq<Block>, lfree: int) {
    forall c :: IsFree(b, c) ==> lfree <= c
  }

  lemma FreeIndex(b: seq<Block>, c: int) returns (j: nat)
    requires IsFree(b, c)
    ensures j < |b| && b[j] == Block(c, false)
  {
    j :| 0 <= j < |b| && b[j] == Block(c, false);
  }

  lemma TakeLow(h: Heap, m: int, k: nat, size: nat)
    requires Good(h, m) && FitsAt(h.blocks, k, size) && size % ALIGN == 0 && LowFree(h)
    ensures LowFree(Take(h, k, size))
  {
    hide Tiled, Coalesced, IsFree, UsedBytes;
    var b, t, a := h.blocks, Take(h, k, size).blocks, h.blocks[k].addr;
    TakeBlocks(h, m, k, size);
    IsFreeAt(b, k);
    forall c | IsFree(t, c)
      ensures Take(h, k, size).lfree <= c
    {
      TakeFree(h, m, k, size, c);
      if h.lfree == a {
        var j := FreeIndex(t, c);
        NextFreeFirst(t, m, k, j);
      }
    }
  }

  lemma IsFreeAt(b: seq<Block>, k: nat)
    requires k < |b| && !b[k].used
    ensures IsFree(b, b[k].addr)
  {
    assert b[k] == Block(b[k].addr, false);
  }

  /** Free blocks that do not lie in front of block k begin at the next free one. */
  lemma NextFreeFirst(b: seq<Block>, m: int, k: nat, j: nat)
    requires Tiled(b, m) && k < |b| && j < |b| && !b[j].used && b[j].addr >= b[k].addr
    ensures b[NextFree(b, k)].addr <= b[j].addr
  {
    Ordered(b, m, j, k);
    Ordered(b, m, j, NextFree(b, k));
  }

  lemma MallocLow(h: Heap, m: int, n: nat)
    requires Good(h, m) && LowFree(h)
    ensures h.lfree in Addrs(h.blocks) && LowFree(Malloc(h, m, n).0)
  {
    hide Tiled, Coalesced, IsFree, Take, LowFree, Extent;
    LfreeFound(h, m);
    if n != 0 && Up(n) <= m {
      var k := Find(h.blocks, h.lfree);
      var r := FirstFit(h.blocks, k, Needed(n), m - Needed(n));
      if r < |h.blocks| { TakeLow(h, m, r, Needed(n)); }
    }
  }

  /** plug_holes neither makes new free blocks nor raises lfree. */
  lemma PlugLow(b: seq<Block>, m: int, lfree: int, i: nat)
    requires Tiled(b, m) && i + 1 < |b| && !b[i].used && CoalescedBut(b, i)
    ensures Plug(b, lfree, i).lfree <= lfree
    ensures Below(b, lfree) ==> Below(Plug(b, lfree, i).blocks, Plug(b, lfree, i).lfree)
  {
    hide IsFree, Join, Tiled;
    var f := Forward(b, lfree, i);
    EndUsed(b, m);
    Ordered(b, m, i, i + 1);
    if i > 0 { Ordered(b, m, i - 1, i); }
    ForwardCoalesced(b, lfree, i);
    if i + 2 < |b| && !b[i + 1].used {
      JoinTiled(b, m, i);
      forall c | IsFree(f.blocks, c)
        ensures IsFree(b, c)
      {
        JoinFree(b, m, i, c);
      }
    }
    if i > 0 && !f.blocks[i - 1].used {
      forall c | IsFree(Join(f.blocks, i - 1), c)
        ensures IsFree(f.blocks, c)
      {
        JoinFree(f.blocks, m, i - 1, c);
      }
    }
    forall c | IsFree(Plug(b, lfree, i).blocks, c)
      ensures IsFree(f.blocks, c) && IsFree(b, c)
    {}
  }

  lemma ReleaseLow(h: Heap, m: int, i: nat)
    requires Good(h, m) && i + 1 < |h.blocks| && h.blocks[i].used
    ensures Release(h, i).lfree <= h.blocks[i].addr
    ensures LowFree(h) ==> LowFree(Release(h, i))
  {
    hide IsFree, Plug;
    var b, a := h.blocks, h.blocks[i].addr;
    SetTiled(b, m, i, false);
    var t := Set(b, i, false);
    PlugLow(t, m, if a < h.lfree then a else h.lfree, i);
    forall c | IsFree(t, c)
      ensures c == a || IsFree(b, c)
    {
      SetFree(b, m, i, false, c);
    }
  }

  /** Cutting a tail off in place hides a free block exactly when it lies below lfree and the next block is in use. */
  lemma ShrinkLow(h: Heap, m: int, i: nat, size: nat)
    requires Good(h, m) && i + 1 < |h.blocks| && h.blocks[i].used && Shrinks(h.blocks, i, size) && size % ALIGN == 0 && LowFree(h)
    ensures LowFree(Shrink(h, i, size)) <==> h.lfree < h.blocks[i].addr || !h.blocks[i + 1].used
  {
    var b, a := h.blocks, h.blocks[i].addr;
    var n := a + HDR + size;
    hide Tiled, EndRoom, Coalesced, Cut, Plug, Below;
    CutAligned(b, m, i, size);
    CutAt(b, i, n, i);
    CutLow(h, m, i, n);
  }

  /** The same for the blocks and lfree that plug_holes leaves. */
  lemma CutLow(h: Heap, m: int, i: nat, n: int)
    requires Good(h, m) && i + 1 < |h.blocks| && h.blocks[i].used && LowFree(h)
    requires h.blocks[i].addr + HDR <= n && n + HDR <= h.blocks[i + 1].addr && n % ALIGN == 0
    requires |Cut(h.blocks, i, n)| == |h.blocks| + 1
    ensures var p := Plug(Cut(h.blocks, i, n), h.lfree, i + 1);
            Below(p.blocks, p.lfree) <==> h.lfree < h.blocks[i].addr || !h.blocks[i + 1].used
  {
    hide Tiled, IsFree, Cut, Join, Coalesced;
    var b, t := h.blocks, Cut(h.blocks, i, n);
    CutTiled(b, m, i, n);
    CutAt(b, i, n, i);
    CutAt(b, i, n, i + 1);
    CutAt(b, i, n, i + 2);
    EndUsed(b, m);
    var p := Plug(t, h.lfree, i + 1);
    LfreeNotBetween(h, m, i);
    if !b[i + 1].used { JoinAt(t, i + 1, i); }
    forall c
      ensures IsFree(p.blocks, c) <==> c == n || (IsFree(b, c) && (b[i + 1].used || c != b[i + 1].addr))
    {
      CutFree(b, i, n, c);
      NotANode(b, m, i, n);
      if !b[i + 1].used { JoinFree(t, m, i + 1, c); }
      else { UsedNotFree(b, m, i + 1); }
    }
    if !b[i + 1].used { IsFreeAt(b, i + 1); }
    assert IsFree(p.blocks, n);
  }

  lemma UsedNotFree(b: seq<Block>, m: int, k: nat)
    requires Tiled(b, m) && k < |b| && b[k].used
    ensures !IsFree(b, b[k].addr)
  {
    if IsFree(b, b[k].addr) {
      var j := FreeIndex(b, b[k].addr);
      AddrsDiffer(b, m, j, k);
    }
  }

  lemma NotANode(b: seq<Block>, m: int, i: nat, n: int)
    requires Tiled(b, m) && i + 1 < |b| && b[i].addr < n < b[i + 1].addr
    ensures !IsFree(b, n)
  {
    forall j: nat | j < |b|
      ensures b[j].addr != n
    {
      Ordered(b, m, i, j);
      Ordered(b, m, j, i + 1);
    }
  }

  /** lfree is below block i, or not below the next one. */
  lemma LfreeNotBetween(h: Heap, m: int, i: nat)
    requires Good(h, m) && i + 1 < |h.blocks| && h.blocks[i].used
    ensures h.lfree < h.blocks[i].addr || h.blocks[i + 1].addr <= h.lfree
  {
    var b := h.blocks;
    LfreeFound(h, m);
    var k := Find(b, h.lfree);
    Ordered(b, m, k, i);
    Ordered(b, m, k, i + 1);
  }

  /** Where a shrinking realloc leaves a free block that no search finds. */
  predicate Hides(h: Heap, m: int, i: nat, n: nat)
    requires i + 1 < |h.blocks|
  {
    && Up(n) <= m && Shrinks(h.blocks, i, Up(n)) && Extent(h.blocks, i) != HDR + Up(n)
    && h.blocks[i].addr <= h.lfree && h.blocks[i + 1].used
  }

  /** realloc keeps all free blocks at or above lfree, unless it hides one; malloc and free always do. */
  lemma ResizeLow(h: Heap, m: int, i: nat, n: nat)
    requires Good(h, m) && i + 1 < |h.blocks| && h.blocks[i].used && LowFree(h)
    ensures h.lfree in Addrs(h.blocks) && (LowFree(Resize(h, m, i, n).0) <==> !Hides(h, m, i, n))
  {
    hide Tiled, Coalesced, LfreeOk, IsFree, Malloc, Shrink, Release, Holds, LowFree;
    var b, size := h.blocks, Up(n);
    LfreeFound(h, m);
    if size <= m && Extent(b, i) != HDR + size {
      if Shrinks(b, i, size) {
        ShrinkLow(h, m, i, size);
      } else {
        MallocLow(h, m, size);
        MallocSound(h, m, size);
        if Malloc(h, m, size).1 != NULL { MoveLow(h, m, i, size); }
      }
    }
  }

  lemma MoveLow(h: Heap, m: int, i: nat, size: nat)
    requires Good(h, m) && i + 1 < |h.blocks| && h.blocks[i].used && h.lfree in Addrs(h.blocks) && Malloc(h, m, size).1 != NULL
    requires LowFree(Malloc(h, m, size).0)
    ensures LowFree(ReleaseAt(Malloc(h, m, size).0, h.blocks[i].addr))
  {
    hide Tiled, Coalesced, LfreeOk, IsFree, Malloc, Release, Holds, LowFree;
    var b, a := h.blocks, h.blocks[i].addr;
    MallocSound(h, m, size);
    var (t, r) := Malloc(h, m, size);
    var e :| e >= HDR + Needed(size) && Gains(b, t.blocks, r - HDR, e);
    HoldsOne(b, m, i, Extent(b, i));
    HeldAt(t.blocks, m, a, Extent(b, i));
    ReleaseLow(t, m, Find(t.blocks, a));
  }

  /** Then a malloc fails only if no free block at all would do, but for one at the end that fits exactly. */
  lemma LowNoRoom(h: Heap, m: int, n: nat)
    requires LowFree(h)
    ensures NoRoom(h, m, n) <==> forall i: nat :: FitsAt(h.blocks, i, Needed(n)) ==> LastExact(h.blocks, i, Needed(n))
  {
    forall i: nat | i < |h.blocks| && !h.blocks[i].used
      ensures h.lfree <= h.blocks[i].addr
    {
      IsFreeAt(h.blocks, i);
    }
  }

  // ---- runs ----

  datatype Op = Alloc(n: nat) | Realloc(ptr: int, n: nat) | Free(ptr: int)

  /** The heap, and the pointers that callers hold with the sizes they asked for last. */
  datatype System = System(heap: Heap, owned: map<int, nat>)

  ghost predicate IsHeld(b: seq<Block>, a: int) {
    exists x :: Holds(b, a, x)
  }

  /** Callers hold one pointer for each block in use, which has the room they asked for. */
  ghost predicate Owns(b: seq<Block>, owned: map<int, nat>) {
    && (forall a, x :: Holds(b, a, x) ==> a + HDR in owned && HDR + owned[a + HDR] <= x)
    && forall p :: p in owned ==> IsHeld(b, p - HDR)
  }

  ghost predicate Consistent(s: System, m: int) {
    Good(s.heap, m) && Owns(s.heap.blocks, s.owned) && UsedBytes(s.heap.blocks) <= s.heap.peak
  }

  lemma OwnedBlock(s: System, m: int, p: int)
    requires Consistent(s, m) && p in s.owned
    ensures var b := s.heap.blocks; p - HDR in Addrs(b) && Find(b, p - HDR) + 1 < |b| && b[Find(b, p - HDR)] == Block(p - HDR, true)
    ensures p != NULL
  {
    var b := s.heap.blocks;
    assert IsHeld(b, p - HDR);
    var x :| Holds(b, p - HDR, x);
    HeldAt(b, m, p - HDR, x);
    NonNegative(b, m, Find(b, p - HDR));
  }

  /** All that is owned is a block. */
  predicate CanStep(s: System) {
    && s.heap.lfree in Addrs(s.heap.blocks)
    && forall p :: p in s.owned ==> p - HDR in Addrs(s.heap.blocks) && Find(s.heap.blocks, p - HDR) + 1 < |s.heap.blocks|
  }

  /** One call; callers free and resize only what they hold, or the null pointer. */
  function Step(s: System, m: int, op: Op): System
    requires CanStep(s)
  {
    match op
    case Alloc(n) => Allocated(s, m, n)
    case Realloc(p, n) =>
      if p == NULL then (if Up(n) > m then s else Allocated(s, m, Up(n)))
      else if p !in s.owned then s
      else
        var (t, r) := Resize(s.heap, m, Find(s.heap.blocks, p - HDR), n);
        if r == NULL then System(t, s.owned) else System(t, (s.owned - {p})[r := n])
    case Free(p) =>
      if p !in s.owned then s else System(Release(s.heap, Find(s.heap.blocks, p - HDR)), s.owned - {p})
  }

  function Allocated(s: System, m: int, n: nat): System
    requires s.heap.lfree in Addrs(s.heap.blocks)
  {
    var (t, p) := Malloc(s.heap, m, n);
    if p == NULL then System(t, s.owned) else System(t, s.owned[p := n])
  }

  lemma OwnsPlaced(b: seq<Block>, t: seq<Block>, a: int, a': int, e: int, owned: map<int, nat>, n: nat)
    requires Owns(b, owned) && Placed(b, t, a, a', e) && e >= HDR + n
    requires a' != a ==> forall x :: !Holds(b, a', x)
    ensures Owns(t, (owned - {a + HDR})[a' + HDR := n])
  {
    hide Holds;
    var owned' := (owned - {a + HDR})[a' + HDR := n];
    forall p | p in owned'
      ensures IsHeld(t, p - HDR)
    {
      if p == a' + HDR {
        assert Holds(t, a', e);
      } else {
        assert IsHeld(b, p - HDR);
        var x :| Holds(b, p - HDR, x);
        assert Holds(t, p - HDR, x);
      }
    }
  }

  lemma OwnsGained(b: seq<Block>, t: seq<Block>, a: int, e: int, owned: map<int, nat>, n: nat)
    requires Owns(b, owned) && Gains(b, t, a, e) && e >= HDR + n
    ensures Owns(t, owned[a + HDR := n])
  {
    hide Holds;
    assert forall c, x :: Holds(t, c, x) <==> (if c == a then x == e else Holds(b, c, x));
    assert Placed(b, t, a, a, e);
    OwnsPlaced(b, t, a, a, e, owned, n);
    assert (owned - {a + HDR})[a + HDR := n] == owned[a + HDR := n];
  }

  lemma OwnsLost(b: seq<Block>, t: seq<Block>, a: int, owned: map<int, nat>)
    requires Owns(b, owned) && Loses(b, t, a)
    ensures Owns(t, owned - {a + HDR})
  {
    hide Holds;
    var owned' := owned - {a + HDR};
    forall p | p in owned'
      ensures IsHeld(t, p - HDR)
    {
      assert IsHeld(b, p - HDR);
      var x :| Holds(b, p - HDR, x);
      assert Holds(t, p - HDR, x);
    }
  }

  lemma AllocatedSound(s: System, m: int, n: nat)
    requires Consistent(s, m)
    ensures s.heap.lfree in Addrs(s.heap.blocks) && Consistent(Allocated(s, m, n), m)
  {
    hide Good, Owns, UsedBytes, Holds, Gains;
    MallocSound(s.heap, m, n);
    MallocPeak(s.heap, m, n);
    var (t, p) := Malloc(s.heap, m, n);
    if p != NULL {
      var e :| e >= HDR + Needed(n) && Gains(s.heap.blocks, t.blocks, p - HDR, e);
      OwnsGained(s.heap.blocks, t.blocks, p - HDR, e, s.owned, n);
    }
  }

  /** max_mem is the high-water mark of used_mem. */
  lemma MallocPeak(h: Heap, m: int, n: nat)
    requires Good(h, m) && h.lfree in Addrs(h.blocks)
    ensures var (t, p) := Malloc(h, m, n); t.peak == if p == NULL then h.peak else Max(h.peak, UsedBytes(t.blocks))
  {
    hide Tiled, Coalesced, IsFree;
    if n != 0 && Up(n) <= m {
      var r := FirstFit(h.blocks, Find(h.blocks, h.lfree), Needed(n), m - Needed(n));
      if r < |h.blocks| { NonNegative(h.blocks, m, r); }
    }
  }

  lemma ResizePeak(h: Heap, m: int, i: nat, n: nat)
    requires Good(h, m) && i + 1 < |h.blocks| && h.blocks[i].used && UsedBytes(h.blocks) <= h.peak
    ensures h.lfree in Addrs(h.blocks)
    ensures var (t, r) := Resize(h, m, i, n); UsedBytes(t.blocks) <= t.peak
  {
    hide Tiled, Coalesced, IsFree, Malloc, Shrink, Release, Holds, UsedBytes;
    var b, a, size := h.blocks, h.blocks[i].addr, Up(n);
    LfreeFound(h, m);
    if size <= m && Extent(b, i) != HDR + size {
      if Shrinks(b, i, size) {
        ShrinkGood(h, m, i, size);
        ShrinkPeak(h, i, size);
      } else {
        MallocSound(h, m, size);
        MallocPeak(h, m, size);
        var (t, r) := Malloc(h, m, size);
        if r != NULL {
          var e :| e >= HDR + Needed(size) && Gains(b, t.blocks, r - HDR, e);
          HoldsOne(b, m, i, Extent(b, i));
          HeldAt(t.blocks, m, a, Extent(b, i));
          ReleaseGood(t, m, Find(t.blocks, a));
          ReleasePeak(t, Find(t.blocks, a));
          ExtentPositive(t.blocks, m, Find(t.blocks, a));
        }
      }
    }
  }

  lemma ShrinkPeak(h: Heap, i: nat, size: nat)
    requires i + 1 < |h.blocks|
    ensures Shrink(h, i, size).peak == h.peak
  {}

  lemma ReleasePeak(h: Heap, i: nat)
    requires i + 1 < |h.blocks|
    ensures Release(h, i).peak == h.peak
  {}

  lemma ExtentPositive(b: seq<Block>, m: int, i: nat)
    requires Tiled(b, m) && i + 1 < |b|
    ensures Extent(b, i) >= HDR
  {}

  /** What Step needs. */
  lemma Callable(s: System, m: int)
    requires Consistent(s, m)
    ensures CanStep(s)
  {
    hide Good, Owns, UsedBytes, Addrs, Find;
    LfreeFound(s.heap, m);
    forall p | p in s.owned
      ensures p - HDR in Addrs(s.heap.blocks) && Find(s.heap.blocks, p - HDR) + 1 < |s.heap.blocks|
    {
      OwnedBlock(s, m, p);
    }
  }

  lemma ResizedSound(s: System, m: int, p: int, n: nat)
    requires Consistent(s, m) && p in s.owned
    requires s.heap.lfree in Addrs(s.heap.blocks) && p - HDR in Addrs(s.heap.blocks) && Find(s.heap.blocks, p - HDR) + 1 < |s.heap.blocks|
    ensures var (t, r) := Resize(s.heap, m, Find(s.heap.blocks, p - HDR), n);
            Consistent(if r == NULL then System(t, s.owned) else System(t, (s.owned - {p})[r := n]), m)
  {
    hide Good, Owns, UsedBytes, Holds, Resize, Placed;
    var b, i := s.heap.blocks, Find(s.heap.blocks, p - HDR);
    OwnedBlock(s, m, p);
    ResizeSound(s.heap, m, i, n);
    ResizePeak(s.heap, m, i, n);
    var (t, r) := Resize(s.heap, m, i, n);
    if r != NULL {
      var e :| e >= HDR + Up(n) && Placed(b, t.blocks, p - HDR, r - HDR, e);
      OwnsPlaced(b, t.blocks, p - HDR, r - HDR, e, s.owned, n);
    }
  }

  lemma StepSound(s: System, m: int, op: Op)
    requires Consistent(s, m)
    ensures CanStep(s)
    ensures Consistent(Step(s, m, op), m)
  {
    hide Good, Owns, UsedBytes, Allocated, Resize, Release, Find, Addrs, Loses, Extent, Up;
    Callable(s, m);
    match op {
      case Alloc(n) => AllocatedSound(s, m, n);
      case Realloc(p, n) =>
        if p == NULL { AllocatedSound(s, m, Up(n)); } else if p in s.owned { ResizedSound(s, m, p, n); }
      case Free(p) =>
        if p in s.owned {
          OwnedBlock(s, m, p);
          var i := Find(s.heap.blocks, p - HDR);
          ReleaseGood(s.heap, m, i);
          ReleasePeak(s.heap, i);
          OwnsLost(s.heap.blocks, Release(s.heap, i).blocks, p - HDR, s.owned);
          GoodTiled(s.heap, m);
          ExtentPositive(s.heap.blocks, m, i);
        }
    }
  }

  lemma GoodTiled(h: Heap, m: int)
    requires Good(h, m)
    ensures Tiled(h.blocks, m)
  {}

  ghost function Stepped(s: System, m: int, op: Op): System
    requires Consistent(s, m)
  {
    Callable(s, m);
    Step(s, m, op)
  }

  ghost function Run(s: System, m: int, ops: seq<Op>): System
    requires Consistent(s, m)
    decreases |ops|
  {
    if ops == [] then s
    else
      StepSound(s, m, ops[0]);
      Run(Stepped(s, m, ops[0]), m, ops[1..])
  }

  lemma {:induction false} RunSound(s: System, m: int, ops: seq<Op>)
    requires Consistent(s, m)
    ensures Consistent(Run(s, m, ops), m)
    decreases |ops|
  {
    if ops != [] {
      StepSound(s, m, ops[0]);
      RunSound(Stepped(s, m, ops[0]), m, ops[1..]);
    }
  }

  /** Only the shrinking of a block in place can hide free memory. */
  ghost predicate StepHides(s: System, m: int, op: Op)
    requires Consistent(s, m)
  {
    Callable(s, m);
    op.Realloc? && op.ptr in s.owned && Hides(s.heap, m, Find(s.heap.blocks, op.ptr - HDR), op.n)
  }

  lemma StepLow(s: System, m: int, op: Op)
    requires Consistent(s, m) && LowFree(s.heap)
    ensures LowFree(Stepped(s, m, op).heap) <==> !StepHides(s, m, op)
  {
    hide Good, Owns, UsedBytes, Resize, Release, LowFree, Malloc, Hides;
    Callable(s, m);
    match op {
      case Alloc(n) => MallocLow(s.heap, m, n);
      case Realloc(p, n) =>
        if p in s.owned {
          OwnedBlock(s, m, p);
          ResizeLow(s.heap, m, Find(s.heap.blocks, p - HDR), n);
        } else if p == NULL {
          MallocLow(s.heap, m, Up(n));
        }
      case Free(p) =>
        if p in s.owned {
          OwnedBlock(s, m, p);
          ReleaseLow(s.heap, m, Find(s.heap.blocks, p - HDR));
        }
    }
  }

  ghost predicate NeverHides(s: System, m: int, ops: seq<Op>)
    requires Consistent(s, m)
    decreases |ops|
  {
    if ops == [] then true
    else
      StepSound(s, m, ops[0]);
      !StepHides(s, m, ops[0]) && NeverHides(Stepped(s, m, ops[0]), m, ops[1..])
  }

  /** In particular over every run of malloc and free alone, no free block lies below lfree. */
  lemma {:induction false} RunLow(s: System, m: int, ops: seq<Op>)
    requires Consistent(s, m) && LowFree(s.heap)
    ensures NeverHides(s, m, ops) ==> LowFree(Run(s, m, ops).heap)
    ensures (forall k :: 0 <= k < |ops| ==> !ops[k].Realloc?) ==> NeverHides(s, m, ops)
    decreases |ops|
  {
    hide LowFree, Consistent, Hides, Step;
    if ops != [] {
      StepSound(s, m, ops[0]);
      StepLow(s, m, ops[0]);
      if !StepHides(s, m, ops[0]) { RunLow(Stepped(s, m, ops[0]), m, ops[1..]); }
    }
  }

  /** The heap that rt_system_heap_init leaves. */
  function Init(m: int): Heap { Heap([Block(0, false), Block(m + HDR, true)], 0, 0) }

  lemma InitSound(m: int)
    requires m >= MINI && m % ALIGN == 0
    ensures Consistent(System(Init(m), map[]), m) && LowFree(Init(m))
  {
    var b := Init(m).blocks;
    assert b[0] == Block(0, false);
    assert UsedBytes(b[1..]) == 0;
  }

  /** The ranges that callers hold lie in the heap and never overlap. */
  lemma OwnedApart(s: System, m: int, p: int, q: int)
    requires Consistent(s, m) && p in s.owned
    ensures HDR <= p < m + HDR && p + s.owned[p] <= m + HDR
    ensures q in s.owned && p != q ==> p + s.owned[p] <= q - HDR || q + s.owned[q] <= p - HDR
  {
    hide Coalesced, Tiled, EndRoom, Holds;
    var b := s.heap.blocks;
    OwnedBlock(s, m, p);
    var i := Find(b, p - HDR);
    HoldsOne(b, m, i, Extent(b, i));
    NonNegative(b, m, i);
    NotBeyond(b, m, i);
    if q in s.owned && p != q {
      OwnedBlock(s, m, q);
      var j := Find(b, q - HDR);
      HoldsOne(b, m, j, Extent(b, j));
      BlocksApart(b, m, i, j);
    }
  }

  lemma BlocksApart(b: seq<Block>, m: int, i: nat, j: nat)
    requires Tiled(b, m) && i + 1 < |b| && j + 1 < |b| && i != j
    ensures b[i + 1].addr <= b[j].addr || b[j + 1].addr <= b[i].addr
  {
    Ordered(b, m, j, i + 1);
    Ordered(b, m, i, j + 1);
  }

  lemma NotBeyond(b: seq<Block>, m: int, i: nat)
    requires Tiled(b, m) && EndRoom(b) && i + 1 < |b|
    ensures b[i].addr + HDR < m + HDR && b[i + 1].addr <= m + HDR
  {}

  /** When the last block in use is freed, all is as it was at the start. */
  lemma AllFreedIsInit(h: Heap, m: int, i: nat)
    requires Good(h, m) && i + 1 < |h.blocks| && h.blocks[i].used
    requires forall c, x :: !Holds(Release(h, i).blocks, c, x)
    ensures Release(h, i) == Init(m).(peak := h.peak)
  {
    hide Release, Holds;
    var t := Release(h, i);
    ReleaseGood(h, m, i);
    ReleaseLow(h, m, i);
    ReleasePeak(h, i);
    OneBlock(t, m);
    Ordered(h.blocks, m, i, |h.blocks| - 1);
  }

  lemma OneBlock(h: Heap, m: int)
    requires Good(h, m) && forall c, x :: !Holds(h.blocks, c, x)
    ensures h.blocks == [Block(0, false), Block(m + HDR, true)] && (h.lfree == m + HDR || h.lfree == 0)
  {
    var b := h.blocks;
    forall j | 0 <= j < |b| - 1
      ensures !b[j].used
    {
      if b[j].used { assert Holds(b, b[j].addr, Extent(b, j)); }
    }
    assert b[0].used || b[1].used;
    assert b == [b[0], b[1]];
  }

  // ---- two consequences of the code as it is ----

  /** The whole heap cannot be allocated: the bound of the search passes over an exact fit at the end. */
  lemma ExactFitRefused(m: int)
    requires m >= MINI && m % ALIGN == 0
    ensures Init(m).lfree in Addrs(Init(m).blocks) && FitsAt(Init(m).blocks, 0, m) && Malloc(Init(m), m, m) == (Init(m), NULL)
  {
    InitSound(m);
    MallocSound(Init(m), m, m);
  }

  // a run that hides a block

  const Held := System(Heap([Block(0, true), Block(912, false), Block(1012, true)], 912, 912), map[12 := 900])
  const Full := System(Heap([Block(0, true), Block(912, true), Block(1012, true)], 1012, 1012), map[12 := 900, 924 := 84])
  const Shrunk := System(Heap([Block(0, true), Block(112, false), Block(912, true), Block(1012, true)], 1012, 1012), map[12 := 100, 924 := 84])

  /** The block where the search begins is handed out. */
  lemma FirstTaken(s: System, m: int, n: nat, k: nat)
    requires Consistent(s, m) && 0 < n && n % ALIGN == 0 && MINI <= n <= m
    requires FitsAt(s.heap.blocks, k, n) && s.heap.blocks[k].addr == s.heap.lfree < m - n
    ensures Stepped(s, m, Alloc(n)) == System(Take(s.heap, k, n), s.owned[s.heap.blocks[k].addr + HDR := n])
  {
    hide Take, UsedBytes, Coalesced, EndRoom, IsFree, Tiled, Owns;
    Callable(s, m);
    GoodTiled(s.heap, m);
    FindIs(s.heap.blocks, m, k);
    NonNegative(s.heap.blocks, m, k);
    assert Up(n) == n;
  }

  lemma HeldReached()
    ensures Consistent(System(Init(1000), map[]), 1000) && Stepped(System(Init(1000), map[]), 1000, Alloc(900)) == Held
  {
    hide Consistent, Take, Stepped;
    InitSound(1000);
    FirstTaken(System(Init(1000), map[]), 1000, 900, 0);
    HeldTaken();
  }

  lemma HeldTaken()
    ensures Take(Init(1000), 0, 900) == Held.heap
  {
    assert Set(Cut(Init(1000).blocks, 0, 912), 0, true) == Held.heap.blocks;
    HeldBytes();
  }

  lemma HeldBytes()
    ensures UsedBytes(Held.heap.blocks) == 912
  {
    assert UsedBytes(Held.heap.blocks[1..]) == 0;
  }

  lemma FullBytes()
    ensures UsedBytes(Full.heap.blocks) == 1012
  {
    assert UsedBytes(Full.heap.blocks[1..][1..]) == 0;
  }

  lemma FullReached()
    requires Consistent(Held, 1000)
    ensures Stepped(Held, 1000, Alloc(84)) == Full
  {
    hide Consistent, Take, Stepped;
    FirstTaken(Held, 1000, 84, 1);
    FullTaken();
  }

  lemma FullTaken()
    ensures Take(Held.heap, 1, 84) == Full.heap
  {
    assert Set(Held.heap.blocks, 1, true) == Full.heap.blocks;
    FullBytes();
  }

  lemma ShrinkFull()
    ensures Shrinks(Full.heap.blocks, 0, 100) && Shrink(Full.heap, 0, 100) == Shrunk.heap
    ensures Hides(Full.heap, 1000, 0, 100)
  {
    assert Cut(Full.heap.blocks, 0, 112) == Shrunk.heap.blocks;
  }

  lemma ResizeFull()
    requires Full.heap.lfree in Addrs(Full.heap.blocks)
    ensures Resize(Full.heap, 1000, 0, 100) == (Shrunk.heap, 12)
  {
    hide Shrink, Malloc;
    ShrinkFull();
  }

  lemma ShrunkReached()
    requires Consistent(Full, 1000)
    ensures Stepped(Full, 1000, Realloc(12, 100)) == Shrunk && StepHides(Full, 1000, Realloc(12, 100))
  {
    hide Shrink, Malloc, UsedBytes, Good, Owns, Resize, Find, Addrs, Hides;
    Callable(Full, 1000);
    GoodTiled(Full.heap, 1000);
    FindIs(Full.heap.blocks, 1000, 0);
    OwnedBlock(Full, 1000, 12);
    ShrinkFull();
    ResizeFull();
    assert (Full.owned - {12})[12 := 100] == Shrunk.owned;
  }

  lemma ShrunkFull()
    requires Consistent(Shrunk, 1000)
    ensures FitsAt(Shrunk.heap.blocks, 1, 500) && Stepped(Shrunk, 1000, Alloc(500)) == Shrunk
  {
    MallocSound(Shrunk.heap, 1000, 500);
    Callable(Shrunk, 1000);
  }

  lemma RunCons(s: System, m: int, op: Op, n: System, rest: seq<Op>)
    requires Consistent(s, m) && Stepped(s, m, op) == n && Consistent(n, m)
    ensures Run(s, m, [op] + rest) == Run(n, m, rest)
  {
    assert ([op] + rest)[1..] == rest;
  }

  /** Two blocks fill a new heap; the first one is shrunk in place, and its tail is out of reach: a request for 500
      bytes fails although 788 are free in one block. */
  lemma HiddenBlock()
    ensures Consistent(System(Init(1000), map[]), 1000)
    ensures var s := Run(System(Init(1000), map[]), 1000, [Alloc(900)] + ([Alloc(84)] + ([Realloc(12, 100)] + [])));
            && s == Shrunk && Consistent(s, 1000)
            && FitsAt(s.heap.blocks, 1, 500) && Stepped(s, 1000, Alloc(500)) == s
  {
    hide Consistent, Stepped, FitsAt;
    var s := System(Init(1000), map[]);
    HeldReached();
    StepSound(s, 1000, Alloc(900));
    SteppedIs(s, 1000, Alloc(900));
    FullReached();
    StepSound(Held, 1000, Alloc(84));
    SteppedIs(Held, 1000, Alloc(84));
    ShrunkReached();
    StepSound(Full, 1000, Realloc(12, 100));
    SteppedIs(Full, 1000, Realloc(12, 100));
    ShrunkFull();
    RunCons(Full, 1000, Realloc(12, 100), Shrunk, []);
    RunCons(Held, 1000, Alloc(84), Full, [Realloc(12, 100)] + []);
    RunCons(s, 1000, Alloc(900), Held, [Alloc(84)] + ([Realloc(12, 100)] + []));
  }

  lemma SteppedIs(s: System, m: int, op: Op)
    requires Consistent(s, m)
    ensures CanStep(s)
    ensures Stepped(s, m, op) == Step(s, m, op)
  {
    Callable(s, m);
  }

  // ---- max_mem ----

  /** The most bytes in use inside one call: a realloc that moves holds both blocks for a while. */
  ghost function Crest(s: System, m: int, op: Op): int
    requires Consistent(s, m)
  {
    Callable(s, m);
    var after := UsedBytes(Stepped(s, m, op).heap.blocks);
    if op.Realloc? && op.ptr in s.owned && Moves(s.heap, m, Find(s.heap.blocks, op.ptr - HDR), op.n)
    then Max(after, UsedBytes(Malloc(s.heap, m, Up(op.n)).0.blocks))
    else after
  }

  predicate Moves(h: Heap, m: int, i: nat, n: nat)
    requires i + 1 < |h.blocks|
  {
    Up(n) <= m && Extent(h.blocks, i) != HDR + Up(n) && !Shrinks(h.blocks, i, Up(n))
  }

  /** The most bytes in use at any moment of a run. */
  ghost function HighWater(s: System, m: int, ops: seq<Op>): int
    requires Consistent(s, m)
    decreases |ops|
  {
    var now := UsedBytes(s.heap.blocks);
    if ops == [] then now
    else
      StepSound(s, m, ops[0]);
      Max(now, Max(Crest(s, m, ops[0]), HighWater(Stepped(s, m, ops[0]), m, ops[1..])))
  }

  lemma AllocatedPeak(s: System, m: int, n: nat)
    requires Consistent(s, m)
    ensures s.heap.lfree in Addrs(s.heap.blocks)
    ensures Allocated(s, m, n).heap.peak == Max(s.heap.peak, UsedBytes(Allocated(s, m, n).heap.blocks))
  {
    hide UsedBytes, Malloc, Good, Owns;
    MallocSound(s.heap, m, n);
    MallocPeak(s.heap, m, n);
  }

  lemma ResizedPeak(h: Heap, m: int, i: nat, n: nat)
    requires Good(h, m) && i + 1 < |h.blocks| && h.blocks[i].used && UsedBytes(h.blocks) <= h.peak
    ensures h.lfree in Addrs(h.blocks)
    ensures var t := Resize(h, m, i, n).0; var after := UsedBytes(t.blocks);
            t.peak == Max(h.peak, if Moves(h, m, i, n) then Max(after, UsedBytes(Malloc(h, m, Up(n)).0.blocks)) else after)
  {
    hide Tiled, EndRoom, Coalesced, IsFree, Malloc, Shrink, Release, Holds, UsedBytes;
    var b, a, size := h.blocks, h.blocks[i].addr, Up(n);
    LfreeFound(h, m);
    if Moves(h, m, i, n) {
      MallocSound(h, m, size);
      MallocPeak(h, m, size);
      var (t, r) := Malloc(h, m, size);
      if r != NULL {
        var e :| e >= HDR + Needed(size) && Gains(b, t.blocks, r - HDR, e);
        HoldsOne(b, m, i, Extent(b, i));
        HeldAt(t.blocks, m, a, Extent(b, i));
        ReleaseGood(t, m, Find(t.blocks, a));
        ReleasePeak(t, Find(t.blocks, a));
        ExtentPositive(t.blocks, m, Find(t.blocks, a));
      }
    } else if size <= m && Extent(b, i) != HDR + size {
      ShrinkGood(h, m, i, size);
      ShrinkPeak(h, i, size);
    }
  }

  lemma StepPeak(s: System, m: int, op: Op)
    requires Consistent(s, m)
    ensures Stepped(s, m, op).heap.peak == Max(s.heap.peak, Crest(s, m, op))
  {
    hide Good, Owns, UsedBytes, Allocated, Resize, Release, Malloc, Moves, Extent, Find, Addrs, Up, Loses;
    Callable(s, m);
    match op {
      case Alloc(n) => AllocatedPeak(s, m, n);
      case Realloc(p, n) =>
        if p in s.owned {
          OwnedBlock(s, m, p);
          ResizedPeak(s.heap, m, Find(s.heap.blocks, p - HDR), n);
        } else if p == NULL {
          AllocatedPeak(s, m, Up(n));
        }
      case Free(p) =>
        if p in s.owned {
          OwnedBlock(s, m, p);
          var i := Find(s.heap.blocks, p - HDR);
          ReleaseGood(s.heap, m, i);
          ReleasePeak(s.heap, i);
          GoodTiled(s.heap, m);
          ExtentPositive(s.heap.blocks, m, i);
        }
    }
  }

  /** Over every run max_mem is the high-water mark of used_mem. */
  lemma {:induction false} RunPeak(s: System, m: int, ops: seq<Op>)
    requires Consistent(s, m)
    ensures Run(s, m, ops).heap.peak == Max(s.heap.peak, HighWater(s, m, ops))
    decreases |ops|
  {
    hide Good, Owns, UsedBytes, Stepped, Crest;
    if ops != [] {
      StepSound(s, m, ops[0]);
      StepPeak(s, m, ops[0]);
      SteppedIs(s, m, ops[0]);
      RunPeak(Stepped(s, m, ops[0]), m, ops[1..]);
    }
  }
}
