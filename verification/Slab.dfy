/** The statements of rt_malloc and rt_free of slab.c. A zone is named by its first page, a chunk by its address. */
module SlabCode {
  import opened Rings
  import opened Chains
  import opened Integers
  import opened HeapBytes
  import opened SlabSizes
  import opened SlabModel
  import opened SlabLinks
  import SlabRuns
  import PageRuns
  import PageCode

  function FirstPage(begin: nat): nat { RoundUp(begin, PAGE) / PAGE }

  /** The pages of n descriptors of four bytes. */
  function UsagePages(n: nat): nat { RoundUp(n * 4, PAGE) / PAGE }

  lemma WholePages(begin: nat, end: nat)
    requires 0 < begin && RoundUp(begin, PAGE) < end / PAGE * PAGE
    ensures 0 < FirstPage(begin) < end / PAGE
    ensures 0 < UsagePages(end / PAGE - FirstPage(begin)) <= end / PAGE - FirstPage(begin)
  {
    RoundUpIs(begin, PAGE);
  }

  /** The largest zone size that is smaller than a 1024th of the heap, within the limits. */
  method ZoneSizeFor(limsize: nat) returns (size: nat)
    ensures ZoneSize(size)
    ensures size == 0x8000 || size < limsize / 1024
    ensures size == 0x2_0000 || limsize / 1024 <= 2 * size
  {
    size := 0x8000;
    while size < 0x2_0000 && 2 * size < limsize / 1024
      invariant ZoneSize(size) && (size == 0x8000 || size < limsize / 1024)
      decreases 0x2_0000 - size
    {
      size := 2 * size;
    }
  }

  const LINK := 4   // sizeof(slab_chunk)

  // ---- bytes ----

  /** The bytes of every live block, except those of the blocks in but, are unchanged. */
  ghost predicate Kept(s: Slab, d: seq<uint8>, d': seq<uint8>, but: set<Block>) {
    && |d| == |d'|
    && forall c, x :: Live(s, c) && c !in but && Addr(s, c) <= x < Addr(s, c) + Bytes(s, c) && 0 <= x < |d| ==> d'[x] == d[x]
  }

  lemma KeptSelf(s: Slab, d: seq<uint8>, but: set<Block>)
    ensures Kept(s, d, d, but)
  {}

  lemma KeptLess(s: Slab, d: seq<uint8>, d': seq<uint8>, but: set<Block>)
    requires Kept(s, d, d', {})
    ensures Kept(s, d, d', but)
  {}

  /** Writes inside one live block leave all others alone. */
  lemma InsideKept(s: Slab, lo: int, hi: int, b: Block, d: seq<uint8>, d': seq<uint8>)
    requires Sound(s, lo, hi) && Live(s, b) && |d| == |d'|
    requires forall x :: 0 <= x < |d| && !(Addr(s, b) <= x < Addr(s, b) + Bytes(s, b)) ==> d'[x] == d[x]
    ensures Kept(s, d, d', {b})
  {
    hide Sound, Live, Addr, Bytes;
    forall c, x | Live(s, c) && c != b && Addr(s, c) <= x < Addr(s, c) + Bytes(s, c) && 0 <= x < |d|
      ensures d'[x] == d[x]
    {
      SlabRuns.LiveApart(s, lo, hi, b, c);
    }
  }

  /** Nor does the header of a zone in which no block is live. */
  lemma HeaderKept(s: Slab, lo: int, hi: int, a: int, n: nat, d: seq<uint8>, d': seq<uint8>)
    requires Sound(s, lo, hi) && |d| == |d'| && HEADER <= n * PAGE
    requires forall c :: Live(s, c) ==> SlabRuns.Home(c) in s.held ==>
               SlabRuns.Home(c) + s.held[SlabRuns.Home(c)] <= a || a + n <= SlabRuns.Home(c)
    requires forall x :: 0 <= x < |d| && !(a * PAGE <= x < a * PAGE + HEADER) ==> d'[x] == d[x]
    ensures Kept(s, d, d', {})
  {
    hide Sound, Live, Addr, Bytes;
    forall c, x | Live(s, c) && Addr(s, c) <= x < Addr(s, c) + Bytes(s, c) && 0 <= x < |d|
      ensures d'[x] == d[x]
    {
      SlabRuns.InHome(s, lo, hi, c);
    }
  }

  lemma BlockInside(s: Slab, lo: int, hi: int, b: Block)
    requires Sound(s, lo, hi) && Live(s, b)
    ensures 0 < Addr(s, b) && Addr(s, b) + Bytes(s, b) <= hi * PAGE && Bytes(s, b) > 0
  {
    hide Sound, Live, Addr, Bytes;
    SlabRuns.InHome(s, lo, hi, b);
    SlabRuns.SoundIsLoose(s, lo, hi);
    SlabRuns.PagesApart(s, lo, hi, SlabRuns.Home(b));
    HeldPositive(s, lo, hi, SlabRuns.Home(b));
  }

  lemma BlockBytes(s: Slab, lo: int, hi: int, b: Block, d: seq<uint8>, d': seq<uint8>, but: set<Block>, n: int)
    requires Sound(s, lo, hi) && Live(s, b) && b !in but && Kept(s, d, d', but) && 0 <= n <= Bytes(s, b) && |d| == hi * PAGE
    ensures SameBytes(d, d', Addr(s, b), Addr(s, b), n)
  {
    hide Sound, Live, Addr, Bytes;
    BlockInside(s, lo, hi, b);
    var a := Addr(s, b);
    var x, y := d[a..a + n], d'[a..a + n];
    forall k | 0 <= k < n
      ensures y[k] == x[k]
    {
      assert d'[a + k] == d[a + k];
    }
  }

  /** A step that moves nothing, and then another one: what both keep is kept. */
  lemma KeptThen(s: Slab, t: Slab, d: seq<uint8>, d1: seq<uint8>, d2: seq<uint8>, but: set<Block>, more: set<Block>)
    requires Kept(s, d, d1, but) && Kept(t, d1, d2, more)
    requires forall c :: Live(s, c) && c !in but ==> c !in more && Live(t, c) && Addr(t, c) == Addr(s, c) && Bytes(t, c) == Bytes(s, c)
    ensures Kept(s, d, d2, but)
  {
    hide Live, Addr, Bytes;
  }

  lemma CopiedBytes(d: seq<uint8>, d1: seq<uint8>, d2: seq<uint8>, d3: seq<uint8>, from: int, to: int, n: int)
    requires SameBytes(d, d1, from, from, n) && 0 <= to && to + n <= |d2| && d2[to..to + n] == d1[from..from + n] && SameBytes(d2, d3, to, to, n)
    ensures SameBytes(d, d3, from, to, n)
  {}

  lemma Shorter(d: seq<uint8>, d': seq<uint8>, from: int, to: int, n: int, k: int)
    requires SameBytes(d, d', from, to, n) && 0 <= k <= n
    ensures SameBytes(d, d', from, to, k)
  {
    assert d'[to..to + k] == d'[to..to + n][..k];
    assert d[from..from + k] == d[from..from + n][..k];
  }

  /** What zoneindex makes of the size; above its range it only complains. */
  method Rounded(n: nat) returns (size: nat)
    requires n > 0
    ensures size == SlabRuns.Wanted(n)
  {
    size := n;
    if n < 16384 {
      var zi;
      zi, size := ZoneIndex(n);
    }
  }

  class Heap {
    const pages: PageCode.PageList
    const zoneArray: array<int>       // zone_array
    const data: array<uint8>          // the memory up to heap_end
    const zoneSize: nat
    const zoneLimit: nat
    const zonePageCnt: nat
    var zoneFree: int                 // zone_free
    var zoneFreeCnt: int
    var memusage: map<int, Usage>
    var header: map<int, Header>      // the zone headers but for z_next
    var zNext: map<int, int>
    var cNext: map<int, int>          // c_next
    ghost var slab: Slab
    ghost const lo: int
    ghost const hi: int

    /** The fields spell out s. */
    ghost predicate Represents(s: Slab)
      reads this, pages, zoneArray
    {
      && zoneSize == s.size && zoneLimit == Limit(zoneSize) && zonePageCnt == ZonePages(zoneSize)
      && pages.Valid() && pages.free == s.free && memusage == s.usage && zoneFreeCnt == |s.idle|
      && Linked(zNext, zoneArray[..], zoneFree, s.lists, s.idle)
      && AllWritten(header, cNext, s.zones) && data.Length == hi * PAGE
    }

    ghost predicate Valid()
      reads this, pages, zoneArray
    {
      Sound(slab, lo, hi) && Represents(slab)
    }

    /** rt_system_heap_init, for a heap that has at least one whole page; memusage takes the first pages. */
    constructor (begin: nat, end: nat)
      requires 0 < begin && RoundUp(begin, PAGE) < end / PAGE * PAGE
      ensures Valid() && fresh(pages) && fresh(zoneArray) && fresh(data)
      ensures lo == FirstPage(begin) + UsagePages(end / PAGE - FirstPage(begin)) && hi == end / PAGE && lo <= hi
      ensures slab == SlabRuns.Empty(zoneSize, lo, hi)
    {
      hide Sound, PageCode.PageList.Valid, UsagePages, Limit, ZonePages, Linked, PageRuns.Alloc, SlabRuns.Empty;
      WholePages(begin, end);
      var first := RoundUp(begin, PAGE) / PAGE;
      var npages := end / PAGE - first;
      var list := new PageCode.PageList(first, npages);
      var size := ZoneSizeFor(npages * PAGE);
      var m := list.PageAlloc(UsagePages(npages));
      var a := new int[ZONES](_ => NULL);
      lo, hi := first + UsagePages(npages), end / PAGE;
      pages, zoneArray, data := list, a, new uint8[end / PAGE * PAGE];
      zoneSize, zoneLimit, zonePageCnt := size, Limit(size), ZonePages(size);
      zoneFree, zoneFreeCnt, memusage, header, zNext, cNext := NULL, 0, map[], map[], map[], map[];
      slab := SlabRuns.Empty(size, first + UsagePages(npages), end / PAGE);
      new;
      SlabRuns.EmptySound(zoneSize, lo, hi);
      EmptyParts(zoneSize, first, npages, UsagePages(npages), zoneArray[..]);
    }

    /** rt_malloc; a null pointer is returned as NULL. */
    method Malloc(n: nat) returns (chunk: int)
      requires Valid()
      modifies this, pages, zoneArray, data
      ensures Valid() && Kept(old(slab), old(data[..]), data[..], {})
      ensures var r := SlabRuns.Malloced(old(slab), n, lo, hi);
              slab == r.state && chunk == match r.outcome case Failed => NULL case Given(b) => Addr(slab, b)
    {
      hide Sound, PageCode.PageList.Valid, Represents, TakePiece, OpenZone, NewZone, TakeLarge, IndexOfSize, Addr, Linked, Kept;
      KeptSelf(slab, data[..], {});
      SlabRuns.Heads(slab, lo, hi);
      SlabRuns.MallocSound(slab, lo, hi, n);
      SlabRuns.SoundIsLoose(slab, lo, hi);
      if n == 0 { return NULL; }
      Sizes(slab);
      if n >= zoneLimit {
        chunk := MallocLarge(n);
        return;
      }
      SlabRuns.ChunkBelow(zoneSize, n);
      var zi, size := ZoneIndex(n);
      HeadIs(slab, zi);
      if zoneArray[zi] != NULL {
        chunk := MallocPiece(zi, size);
        return;
      }
      SpareIs(slab);
      if zoneFree != NULL {
        SlabRuns.OpenGives(slab.(idle := slab.idle[1..]), slab.idle[0], zi);
        chunk := MallocSpare(zi, size);
      } else {
        chunk := MallocZone(zi, size);
      }
    }

    /** rt_free of a null pointer or of a live block. */
    method Free(ptr: int)
      requires Valid() && (ptr != NULL ==> Live(slab, Find(slab, ptr)) && Addr(slab, Find(slab, ptr)) == ptr)
      modifies this, pages, zoneArray, data
      ensures Valid()
      ensures Kept(old(slab), old(data[..]), data[..], if ptr == NULL then {} else {Find(old(slab), ptr)})
      ensures ptr == NULL ==> slab == old(slab)
      ensures ptr != NULL ==> slab == SlabRuns.Freed(old(slab), Find(old(slab), ptr), lo, hi)
    {
      hide Sound, PageCode.PageList.Valid, Linked, AllWritten, Live, Find, Addr, Retires, Retire, Trim, ReturnChunk, Kept;
      KeptSelf(slab, data[..], if ptr == NULL then {} else {Find(slab, ptr)});
      if ptr == NULL { return; }
      ghost var b := Find(slab, ptr);
      SlabRuns.FreeSound(slab, lo, hi, b);
      UsageAt(slab, lo, hi, ptr);
      var p := ptr / PAGE;
      if memusage[p].Large? {
        var n := memusage[p].pages;
        memusage := memusage[p := Large(0)];
        HeldApart(slab, lo, hi, p);
        pages.PageFree(p, n);
        slab := FreeLarge(slab, p, n);
        return;
      }
      var z := p - memusage[p].offset;
      Return(z, ptr, b.chunk);
    }

    /** The chunk goes back to its zone; unless other zones of its size remain, an unused zone is kept in place. */
    method Return(z: int, ptr: int, ghost i: int)
      requires Valid() && Live(slab, Piece(z, i)) && ptr == Addr(slab, Piece(z, i))
      modifies this, pages, zoneArray, data
      ensures z in old(slab).zones && old(slab).zones[z].index < |old(slab).lists|
      ensures Represents(slab) && slab == FreePiece(old(slab), z, i)
      ensures Kept(old(slab), old(data[..]), data[..], {Piece(z, i)})
    {
      hide Kept, Sound, PageCode.PageList.Valid, Linked, AllWritten, Live, Addr, Retire, Trim, ReturnChunk, Written, Zone.Free;
      GiveChunk(z, ptr, i);
      SlabRuns.SoundIsLoose(slab, lo, hi);
      SlabRuns.ReturnSound(old(slab), lo, hi, z, i);
      SlabRuns.ReturnIndex(old(slab), z, i);
      IsWritten(header, cNext, slab.zones, z);
      HeaderIs(header[z], cNext, z, slab.zones[z]);
      var zi := header[z].zoneIndex;
      LastOfList(slab, lo, hi, z);
      if header[z].nfree == header[z].nmax && (zNext[z] != NULL || zoneArray[zi] != z) {
        ReturnSpare(slab, lo, hi, z);
        Unlink(z, zi);
        CountIs(slab);
        if zoneFreeCnt > KEPT { Shrink(); }
      }
    }

    method GiveChunk(z: int, ptr: int, ghost i: int)
      requires Valid() && Live(slab, Piece(z, i)) && ptr == Addr(slab, Piece(z, i))
      modifies this, zoneArray, data
      ensures z in old(slab).zones && old(slab).zones[z].index < |old(slab).lists|
      ensures Valid() && slab == ReturnChunk(old(slab), z, i) && Live(old(slab), Piece(z, i))
      ensures Kept(old(slab), old(data[..]), data[..], {Piece(z, i)})
    {
      hide Kept, Sound, PageCode.PageList.Valid, Linked, AllWritten, Written, ZoneOk, Elsewhere, ChunkAddr, Zone.Used, Addr;
      SlabRuns.LiveZone(slab, z, i);
      SlabRuns.ReturnSound(slab, lo, hi, z, i);
      SlabRuns.SoundIsLoose(slab, lo, hi);
      ghost var abs := slab.zones[z];
      ZoneElsewhere(slab, lo, hi, z);
      IsWritten(header, cNext, slab.zones, z);
      AddrIs(slab, z, i);
      PieceInside(slab, lo, hi, z, i);
      PushChunk(header[z], cNext, z, abs, i);
      ghost var header0, links0 := header, cNext;
      ChunkLink(ptr, z, i);
      cNext := cNext[ptr := header[z].freeChunk];
      header := header[z := header[z].(freeChunk := ptr)];
      header := header[z := header[z].(nfree := header[z].nfree + 1)];
      var zi := header[z].zoneIndex;
      NeighboursApart(slab, lo, hi, z);
      OneWritten(slab.size, header0, links0, slab.zones, z, header[z], abs.(freed := [i] + abs.freed), ptr, header0[z].freeChunk);
      assert header == header0[z := header[z]];
      if header[z].nfree - 1 == 0 {
        LinkedArray(slab, zi);
        PushLinked(zNext, zoneArray[..], zoneFree, slab.lists, slab.idle, zi, z);
        zNext := zNext[z := zoneArray[zi]];
        zoneArray[zi] := z;
      }
      slab := ReturnChunk(slab, z, i);
    }

    /** The link in a chunk that is freed overwrites its first bytes. */
    method ChunkLink(ptr: int, ghost z: int, ghost i: int)
      requires Valid() && Live(slab, Piece(z, i)) && ptr == Addr(slab, Piece(z, i))
      modifies data
      ensures Kept(slab, old(data[..]), data[..], {Piece(z, i)})
    {
      hide Sound, Live, Addr, Bytes, Kept;
      BlockInside(slab, lo, hi, Piece(z, i));
      ChunkRoom(slab, lo, hi, z, i);
      Overwrite(data, ptr, LINK);
      InsideKept(slab, lo, hi, Piece(z, i), old(data[..]), data[..]);
    }

    /** The zone leaves its list and becomes the first spare one. */
    method Unlink(z: int, zi: nat)
      requires Loose(slab, lo, hi) && Represents(slab) && z in slab.zones && zi == slab.zones[z].index < |slab.lists| && slab.zones[z].Free() > 0
      modifies this, zoneArray
      ensures Represents(slab) && slab == Retire(old(slab), z)
    {
      hide Loose, PageCode.PageList.Valid, Linked, AllWritten, Elsewhere, Chain, Zone.Free, Unlisted;
      ZoneElsewhere(slab, lo, hi, z);
      Unchain(z, zi);
      ghost var l := slab.lists[zi];
      UnlistedMember(l, z, z);
      Nowhere(slab.lists, slab.idle, zi, Unlisted(l, z), z);
      PushSpare(zNext, zoneArray[..], zoneFree, slab.lists[zi := Unlisted(l, z)], slab.idle, z);
      zNext := zNext[z := zoneFree];
      zoneFree := z;
      zoneFreeCnt := zoneFreeCnt + 1;
      FewerWritten(header, cNext, slab.zones, z);
      slab := Retire(slab, z);
    }

    /** The loop that looks for the link to the zone, and the unlinking. */
    method Unchain(z: int, zi: nat)
      requires Loose(slab, lo, hi) && Linked(zNext, zoneArray[..], zoneFree, slab.lists, slab.idle)
      requires zi < |slab.lists| && z in slab.lists[zi]
      modifies this`zNext, zoneArray
      ensures Linked(zNext, zoneArray[..], zoneFree, slab.lists[zi := Unlisted(slab.lists[zi], z)], slab.idle)
    {
      hide Loose, Linked, Elsewhere, Chain, Without;
      ListedElsewhere(slab, lo, hi, zi);
      LinkedArray(slab, zi);
      ghost var l := slab.lists[zi];
      var prev, p := NULL, zoneArray[zi];
      ghost var k := 0;
      ListAt(slab, zi, 0);
      while p != z
        invariant k < |l| && p == l[k] && z in l[k..] && prev == if k == 0 then NULL else l[k - 1]
        invariant zNext == old(zNext) && zoneArray[..] == old(zoneArray[..])
        decreases |l| - k
      {
        assert z in l[k + 1..];
        ListAt(slab, zi, k + 1);
        prev := p;
        p := zNext[p];
        k := k + 1;
      }
      Rings.IndexUnique(l, k);
      UnlinkLinked(zNext, zoneArray[..], zoneFree, slab.lists, slab.idle, zi, k);
      if k > 0 { ListAt(slab, zi, k - 1); }
      if prev == NULL { zoneArray[zi] := zNext[z]; } else { zNext := zNext[prev := zNext[z]]; }
    }

    lemma CountIs(s: Slab)
      requires Represents(s)
      ensures zoneFreeCnt == |s.idle|
      ensures |s.idle| <= KEPT ==> Trim(s) == s
    {}

    lemma ListAt(s: Slab, zi: nat, k: nat)
      requires Linked(zNext, zoneArray[..], zoneFree, s.lists, s.idle) && zi < |s.lists| && k < |s.lists[zi]|
      ensures zi < zoneArray.Length && (k == 0 ==> zoneArray[zi] == s.lists[zi][0])
      ensures s.lists[zi][k] != NULL
      ensures k > 0 ==> s.lists[zi][k - 1] in zNext && zNext[s.lists[zi][k - 1]] == s.lists[zi][k]
    {
      ChainAt(zNext, zoneArray[..][zi], s.lists[zi], k);
    }

    /** The test for other zones on the list. */
    lemma LastOfList(s: Slab, lo: int, hi: int, z: int)
      requires Loose(s, lo, hi) && Represents(s) && z in s.zones && s.zones[z].Free() > 0
      ensures s.zones[z].index < |s.lists| && s.zones[z].index < zoneArray.Length && z in zNext
      ensures s.lists[s.zones[z].index] != [z] <==> zNext[z] != NULL || zoneArray[s.zones[z].index] != z
    {
      hide PageCode.PageList.Valid, Loose, AllWritten;
      ZoneElsewhere(s, lo, hi, z);
      var zi := s.zones[z].index;
      var l := s.lists[zi];
      assert Chain(zNext, zoneArray[..][zi], l);
      var k := IndexOf(l, z);
      ChainAt(zNext, zoneArray[zi], l, k);
      ChainHead(zNext, zNext[z], l[k + 1..]);
      if zoneArray[zi] == z {
        assert l[0] == l[k];
        assert l == [z] + l[1..];
      }
    }

    /** The zone that was kept last goes back to the page allocator. */
    method Shrink()
      requires Loose(slab, lo, hi) && Represents(slab) && |slab.idle| > KEPT
      modifies this, pages
      ensures Represents(slab) && slab == Trim(old(slab))
    {
      hide Loose, PageCode.PageList.Valid, Linked, AllWritten, Cleared, ZonePages;
      SpareIs(slab);
      SpareHeld(slab, lo, hi);
      PopSpare(zNext, zoneArray[..], zoneFree, slab.lists, slab.idle);
      var z := zoneFree;
      zoneFree := zNext[z];
      zoneFreeCnt := zoneFreeCnt - 1;
      ClearPages(z);
      HeldApart(slab, lo, hi, z);
      pages.PageFree(z, zonePageCnt);
      slab := Trim(slab);
    }

    /** rt_realloc of a null pointer or of a live block. */
    method Realloc(ptr: int, n: nat) returns (r: int)
      requires Valid() && (ptr != NULL ==> Live(slab, Find(slab, ptr)) && Addr(slab, Find(slab, ptr)) == ptr)
      modifies this, pages, zoneArray, data
      ensures Valid()
      ensures Kept(old(slab), old(data[..]), data[..], if ptr == NULL then {} else {Find(old(slab), ptr)})
      ensures ptr == NULL ==> var q := SlabRuns.Malloced(old(slab), n, lo, hi);
                slab == q.state && r == match q.outcome case Failed => NULL case Given(b) => Addr(slab, b)
      ensures ptr != NULL && n == 0 ==> r == NULL && slab == SlabRuns.Freed(old(slab), Find(old(slab), ptr), lo, hi)
      ensures ptr != NULL && n > 0 ==> var q := SlabRuns.Realloced(old(slab), Find(old(slab), ptr), n, lo, hi);
                slab == q.state && r == match q.outcome case Failed => NULL case Given(b) => Addr(slab, b)
      ensures ptr != NULL && r != NULL ==>
                SameBytes(old(data[..]), data[..], ptr, r, Min(Bytes(old(slab), Find(old(slab), ptr)), n))
    {
      hide Sound, Represents, Live, Find, Addr, Bytes, Kept, SameBytes, SlabRuns.Malloced, SlabRuns.Freed, SlabRuns.Wanted;
      if ptr == NULL {
        r := Malloc(n);
        return;
      }
      if n == 0 {
        Free(ptr);
        return NULL;
      }
      ghost var b := Find(slab, ptr);
      UsageAt(slab, lo, hi, ptr);
      UsageIs(slab);
      BlockKind(slab, b);
      PointerIs(slab, lo, hi, ptr);
      var p := ptr / PAGE;
      if memusage[p].Large? {
        r := Move(ptr, n, memusage[p].pages * PAGE, n);
        return;
      }
      r := ReallocChunk(ptr, p - memusage[p].offset, n);
    }

    /** A chunk that is already of the size stays. */
    method ReallocChunk(ptr: int, z: int, n: nat) returns (r: int)
      requires Valid() && Live(slab, Find(slab, ptr)) && Addr(slab, Find(slab, ptr)) == ptr && n > 0
      requires Find(slab, ptr).Piece? && Find(slab, ptr).zone == z
      modifies this, pages, zoneArray, data
      ensures Valid() && Kept(old(slab), old(data[..]), data[..], {Find(old(slab), ptr)})
      ensures var q := SlabRuns.Realloced(old(slab), Find(old(slab), ptr), n, lo, hi);
              slab == q.state && r == match q.outcome case Failed => NULL case Given(b) => Addr(slab, b)
      ensures r != NULL ==> SameBytes(old(data[..]), data[..], ptr, r, Min(Bytes(old(slab), Find(old(slab), ptr)), n))
    {
      hide Sound, Represents, Live, Find, Addr, Bytes, Kept, SameBytes, SlabRuns.Malloced, SlabRuns.Freed, SlabRuns.Wanted;
      ghost var b := Find(slab, ptr);
      UsageIs(slab);
      BlockKind(slab, b);
      ChunkSizeAt(slab, z);
      var size := Rounded(n);
      if header[z].chunkSize == size {
        KeptSelf(slab, data[..], {b});
        KeptSelf(slab, data[..], {});
        BlockInside(slab, lo, hi, b);
        BlockBytes(slab, lo, hi, b, data[..], data[..], {}, Min(Bytes(slab, b), n));
        return ptr;
      }
      r := Move(ptr, size, header[z].chunkSize, n);
    }

    /** Allocate, copy and free. */
    method Move(ptr: int, size: nat, was: int, ghost n: nat) returns (r: int)
      requires Valid() && Live(slab, Find(slab, ptr)) && Addr(slab, Find(slab, ptr)) == ptr && was == Bytes(slab, Find(slab, ptr))
      requires 0 < n <= size == SlabRuns.Asked(Find(slab, ptr), n) && !SlabRuns.Stays(slab, Find(slab, ptr), n)
      modifies this, pages, zoneArray, data
      ensures Valid() && Kept(old(slab), old(data[..]), data[..], {Find(old(slab), ptr)})
      ensures var q := SlabRuns.Realloced(old(slab), Find(old(slab), ptr), n, lo, hi);
              slab == q.state && r == match q.outcome case Failed => NULL case Given(b) => Addr(slab, b)
      ensures r != NULL ==> SameBytes(old(data[..]), data[..], ptr, r, Min(Bytes(old(slab), Find(old(slab), ptr)), n))
    {
      hide Sound, Represents, Live, Find, Addr, Bytes, Kept, SameBytes, SlabRuns.Malloced, SlabRuns.Freed, SlabRuns.Wanted, SlabRuns.Stays;
      ghost var s, d, b := slab, data[..], Find(slab, ptr);
      NullIsFailure(s, size, lo, hi);
      PointerIs(s, lo, hi, ptr);
      UsageIs(s);
      r := Malloc(size);
      KeptLess(s, d, data[..], {b});
      if r != NULL {
        ghost var m, d1, c := slab, data[..], SlabRuns.Malloced(s, size, lo, hi).outcome.block;
        SlabRuns.StillLive(s, lo, hi, b, size);
        CopyRoom(s, m, lo, hi, b, c, size);
        MemCopy(data, r, ptr, Min(size, was));
        ghost var d2 := data[..];
        StillFound(m, lo, hi, b, ptr);
        SameAddress(m, lo, hi, b, c);
        Free(ptr);
        MovedKept(s, m, slab, lo, hi, b, c, d, d1, d2, data[..], size, was, n);
      }
    }

    lemma UsageIs(s: Slab)
      requires Represents(s)
      ensures memusage == s.usage && data.Length == hi * PAGE
    {}

    lemma ChunkSizeAt(s: Slab, z: int)
      requires Represents(s)
      ensures z in s.zones ==> z in header && header[z].chunkSize == s.zones[z].Chunk()
    {
      if z in s.zones { IsWritten(header, cNext, s.zones, z); }
    }

    /** A run of calls; callers keep the pointers they were given. */
    method RunAll(cs: seq<SlabRuns.Request>, owned: map<int, nat>) returns (owned': map<int, nat>)
      requires Valid() && SlabRuns.Owns(slab, owned)
      modifies this, pages, zoneArray, data
      ensures Valid() && SlabRuns.System(slab, owned') == SlabRuns.Run(SlabRuns.System(old(slab), owned), cs, lo, hi)
      ensures forall p :: p in owned && Unnamed(cs, p) ==>
                p in owned' && owned'[p] == owned[p] && SameBytes(old(data[..]), data[..], p, p, owned[p])
      decreases |cs|
    {
      hide Sound, Represents, SlabRuns.Owns, SlabRuns.Step, Kept, SameBytes, Unnamed;
      UsageIs(slab);
      owned' := owned;
      if cs == [] {
        OwnedBytes(SlabRuns.System(slab, owned), lo, hi, data[..]);
      } else {
        ghost var s, d := SlabRuns.System(slab, owned), data[..];
        SlabRuns.StepSound(s, cs[0], lo, hi);
        owned' := Call(cs[0], owned);
        ghost var d1 := data[..];
        owned' := RunAll(cs[1..], owned');
        forall p | p in owned && Unnamed(cs, p)
          ensures p in owned' && owned'[p] == owned[p] && SameBytes(d, data[..], p, p, owned[p])
        {
          UnnamedRest(cs, p);
          StepOwned(s, cs[0], lo, hi, p);
          StepBytes(s, cs[0], lo, hi, p, d, d1);
          BytesChain(d, d1, data[..], p, owned[p]);
        }
      }
    }

    method Call(c: SlabRuns.Request, owned: map<int, nat>) returns (owned': map<int, nat>)
      requires Valid() && SlabRuns.Owns(slab, owned)
      modifies this, pages, zoneArray, data
      ensures Valid() && SlabRuns.System(slab, owned') == SlabRuns.Step(SlabRuns.System(old(slab), owned), c, lo, hi)
      ensures Kept(old(slab), old(data[..]), data[..], Named(SlabRuns.System(old(slab), owned), c))
    {
      hide Sound, Represents, SlabRuns.Owns, SlabRuns.Malloced, SlabRuns.Freed, SlabRuns.Realloced, Find, Live, Addr, Bytes, Kept, SameBytes;
      owned' := owned;
      ghost var s := SlabRuns.System(slab, owned);
      KeptSelf(slab, data[..], Named(s, c));
      match c {
        case Get(n) =>
          NullIsFailure(s.slab, n, lo, hi);
          var p := Malloc(n);
          if p != NULL { owned' := owned'[p := n]; }
        case Put(p) =>
          if p in owned {
            SlabRuns.OwnedLive(s, p);
            PointerIs(s.slab, lo, hi, p);
            Free(p);
            owned' := owned' - {p};
          }
        case Resize(p, n) =>
          if p in owned {
            SlabRuns.OwnedLive(s, p);
            PointerIs(s.slab, lo, hi, p);
            if n > 0 { NullIsFailed(s.slab, Find(s.slab, p), n, lo, hi); }
            var q := Realloc(p, n);
            if n == 0 { owned' := owned' - {p}; } else if q != NULL { owned' := (owned' - {p})[q := n]; }
          }
      }
    }

    lemma Sizes(s: Slab)
      requires Represents(s)
      ensures zoneSize == s.size && zoneLimit == Limit(zoneSize) && zonePageCnt == ZonePages(zoneSize)
      ensures zoneArray.Length == |s.lists|
    {}

    lemma HeadIs(s: Slab, zi: nat)
      requires Represents(s) && zi < |s.lists|
      ensures zoneArray.Length == |s.lists| && (zoneArray[zi] == NULL <==> s.lists[zi] == [])
      ensures s.lists[zi] != [] ==> zoneArray[zi] == s.lists[zi][0]
    {
      assert Chain(zNext, zoneArray[..][zi], s.lists[zi]);
    }

    lemma SpareIs(s: Slab)
      requires Represents(s)
      ensures zoneFree == NULL <==> s.idle == []
      ensures s.idle != [] ==> zoneFree == s.idle[0]
    {}

    /** A chunk of the first zone of the list. */
    method MallocPiece(zi: nat, size: nat) returns (chunk: int)
      requires Valid() && zi < ZONES && |slab.lists| == ZONES && size == ChunkOf(zi)
      requires slab.lists[zi] != [] && slab.lists[zi][0] in slab.zones
      modifies this, zoneArray
      ensures var r := TakePiece(old(slab), zi);
              Represents(slab) && slab == r.state && r.outcome.Given? && chunk == Addr(slab, r.outcome.block)
    {
      hide Sound, PageCode.PageList.Valid, Linked, AllWritten, Written, ZoneOk, TakeChunk, Zone.Free, ChunkOf, Addr, Elsewhere,
        ChunkAddr;
      HeadIs(slab, zi);
      SlabRuns.HeadListed(slab, lo, hi, zi);
      SlabRuns.SoundIsLoose(slab, lo, hi);
      var z := zoneArray[zi];
      ghost var abs := slab.zones[z];
      ZoneElsewhere(slab, lo, hi, z);
      PopLinked(zNext, zoneArray[..], zoneFree, slab.lists, slab.idle, zi);
      IsWritten(header, cNext, slab.zones, z);
      TakeWritten(slab.size, header[z], cNext, z, abs);
      ghost var header0, z' := header, TakeChunk(abs).0;
      header := header[z := header[z].(nfree := header[z].nfree - 1)];
      if header[z].nfree == 0 {
        zoneArray[zi] := zNext[z];
        zNext := zNext[z := NULL];
      }
      chunk := NextChunk(z, size);
      HeaderWritten(header0, cNext, slab.zones, z, header[z], z');
      assert header == header0[z := header[z]];
      slab := TakePiece(slab, zi).state;
      AddrIs(slab, z, TakeChunk(abs).1);
    }

    /** A chunk that was never used, else the first of the free-chunk list. */
    method NextChunk(z: int, size: nat) returns (chunk: int)
      requires z in header && (header[z].uindex + 1 == header[z].nmax ==> header[z].freeChunk in cNext)
      modifies this`header
      ensures var h := old(header[z]);
              if h.uindex + 1 != h.nmax then
                header == old(header)[z := h.(uindex := h.uindex + 1)] && chunk == h.base + (h.uindex + 1) * size
              else
                header == old(header)[z := h.(freeChunk := cNext[h.freeChunk])] && chunk == h.freeChunk
    {
      if header[z].uindex + 1 != header[z].nmax {
        header := header[z := header[z].(uindex := header[z].uindex + 1)];
        chunk := header[z].base + header[z].uindex * size;
      } else {
        chunk := header[z].freeChunk;
        header := header[z := header[z].(freeChunk := cNext[chunk])];
      }
    }

    /** At or above the limit whole pages are taken. */
    method MallocLarge(n: nat) returns (chunk: int)
      requires Valid() && n > 0
      modifies this, pages
      ensures var r := TakeLarge(old(slab), n);
              Represents(slab) && slab == r.state && chunk == match r.outcome case Failed => NULL case Given(b) => Addr(slab, b)
    {
      hide Sound, PageCode.PageList.Valid, Linked, AllWritten, PagesOf, PageRuns.Alloc, PageRuns.Good, ArrayOk, IdleOk, HeldOk;
      SlabRuns.PagesEnough(n);
      SlabRuns.SoundIsLoose(slab, lo, hi);
      PageCode.NotNull(PageRuns.Pages(slab.free, slab.held), PagesOf(n), lo, hi);
      var page := pages.PageAlloc(PagesOf(n));
      if page == PageCode.NULL { return NULL; }
      memusage := memusage[page := Large(PagesOf(n))];
      slab := TakeLarge(slab, n).state;
      return page * PAGE;
    }

    /** The first of the spare zones is opened. */
    method MallocSpare(zi: nat, size: nat) returns (chunk: int)
      requires Valid() && zi < ZONES && 0 < size == ChunkOf(zi) <= zoneLimit && slab.idle != []
      modifies this, zoneArray, data
      ensures Kept(old(slab), old(data[..]), data[..], {})
      ensures zi < |old(slab).lists|
      ensures var r := OpenZone(old(slab).(idle := old(slab).idle[1..]), old(slab).idle[0], zi);
              Represents(slab) && slab == r.state && chunk == Addr(slab, Piece(old(slab).idle[0], 0))
    {
      hide Sound, PageCode.PageList.Valid, Linked, AllWritten, ChunkOf, Limit, OpenZone, ZonePages, Addr;
      SlabRuns.SoundIsLoose(slab, lo, hi);
      SpareIs(slab);
      SpareElsewhere(slab, lo, hi);
      PopSpare(zNext, zoneArray[..], zoneFree, slab.lists, slab.idle);
      var z := zoneFree;
      zoneFree := zNext[z];
      zoneFreeCnt := zoneFreeCnt - 1;
      ghost var s := slab;
      slab := slab.(idle := slab.idle[1..]);
      SpareEnd(s, lo, hi);
      chunk := Open(z, zi, size);
      SpareKept(s, lo, hi, old(data[..]), data[..]);
    }

    /** A new zone from the page allocator is opened. */
    method MallocZone(zi: nat, size: nat) returns (chunk: int)
      requires Valid() && zi < ZONES && 0 < size == ChunkOf(zi) <= zoneLimit && |slab.lists| == ZONES
      modifies this, pages, zoneArray, data
      ensures Kept(old(slab), old(data[..]), data[..], {})
      ensures var r := NewZone(old(slab), zi);
              Represents(slab) && slab == r.state && chunk == match r.outcome case Failed => NULL case Given(b) => Addr(slab, b)
    {
      hide Sound, ChunkOf, Limit, OpenZone, ZonePages, Addr, PageRuns.Alloc, NewZone, SlabRuns.WithPages, Represents;
      Sizes(slab);
      NewZoneIs(slab, zi);
      KeptSelf(slab, data[..], {});
      var z := ZoneOfPages();
      if z == PageCode.NULL { return NULL; }
      NewElsewhere(old(slab), lo, hi, zonePageCnt);
      SlabRuns.OpenGives(slab, z, zi);
      NewEnd(old(slab), lo, hi, zonePageCnt);
      chunk := Open(z, zi, size);
      NewKept(old(slab), lo, hi, zonePageCnt, old(data[..]), data[..]);
    }

    /** The pages of a new zone are taken and marked. */
    method ZoneOfPages() returns (z: int)
      requires Valid()
      modifies this, pages
      ensures Represents(slab) && old(slab).size == slab.size && zonePageCnt == ZonePages(slab.size) > 0
      ensures match PageRuns.Alloc(old(slab).free, zonePageCnt).result
              case Nothing => z == PageCode.NULL && slab == old(slab)
              case Taken(a) => z == a && a > 0 && slab == SlabRuns.WithPages(old(slab), zonePageCnt)
    {
      hide Sound, PageCode.PageList.Valid, Linked, AllWritten, Limit, ZonePages, PageRuns.Alloc;
      SlabRuns.NormalFree(slab, lo, hi);
      SlabRuns.SoundIsLoose(slab, lo, hi);
      GoodFree(slab, zonePageCnt, lo, hi);
      z := pages.PageAlloc(zonePageCnt);
      if z == PageCode.NULL { return; }
      MarkPages(z);
      slab := SlabRuns.WithPages(slab, zonePageCnt);
    }

    /** Every page of zone z is marked with its distance from z. */
    method MarkPages(z: int)
      modifies this`memusage
      ensures memusage == Marked(old(memusage), z, zonePageCnt)
    {
      var off := 0;
      while off < zonePageCnt
        invariant 0 <= off <= zonePageCnt && memusage == Marked(old(memusage), z, off)
      {
        memusage := memusage[z + off := Small(off)];
        off := off + 1;
      }
    }

    /** Every page of zone z is marked as free. */
    method ClearPages(z: int)
      modifies this`memusage
      ensures memusage == Cleared(old(memusage), z, zonePageCnt)
    {
      var i := 0;
      while i < zonePageCnt
        invariant 0 <= i <= zonePageCnt && memusage == Cleared(old(memusage), z, i)
      {
        memusage := memusage[z + i := None];
        i := i + 1;
      }
    }

    /** The header of zone z is written, and the zone linked to the zone array. */
    method Open(z: int, zi: nat, size: nat) returns (chunk: int)
      requires Represents(slab) && z > 0 && z !in slab.idle && forall i :: 0 <= i < |slab.lists| ==> z !in slab.lists[i]
      requires zi < |slab.lists| && 0 < size == ChunkOf(zi) && z !in slab.zones && z * PAGE + HEADER <= hi * PAGE
      modifies this, zoneArray, data
      ensures forall x :: 0 <= x < data.Length && !(z * PAGE <= x < z * PAGE + HEADER) ==> data[x] == old(data[x])
      ensures var r := OpenZone(old(slab), z, zi); Represents(slab) && slab == r.state && chunk == Addr(slab, Piece(z, 0))
    {
      hide PageCode.PageList.Valid, Linked, AllWritten, Written, Capacity, Offset;
      var off := Offset(size);
      Overwrite(data, z * PAGE, HEADER);
      header := header[z := Header(Capacity(zoneSize, size) - 1, Capacity(zoneSize, size), z * PAGE + off, 0, size, zi, NULL)];
      chunk := header[z].base + header[z].uindex * size;
      NewWritten(header[z], cNext, z, Zone(zi, Capacity(zoneSize, size), 0, []));
      HeaderWritten(old(header), cNext, slab.zones, z, header[z], Zone(zi, Capacity(zoneSize, size), 0, []));
      LinkedArray(slab, zi);
      PushLinked(zNext, zoneArray[..], zoneFree, slab.lists, slab.idle, zi, z);
      zNext := zNext[z := zoneArray[zi]];
      zoneArray[zi] := z;
      slab := OpenZone(slab, z, zi).state;
    }

    lemma LinkedArray(s: Slab, zi: nat)
      requires Linked(zNext, zoneArray[..], zoneFree, s.lists, s.idle) && zi < |s.lists|
      ensures zi < zoneArray.Length
    {}
  }

  lemma IsWritten(header: map<int, Header>, links: map<int, int>, zones: map<int, Zone>, a: int)
    requires AllWritten(header, links, zones) && a in zones
    ensures a in header && Written(header[a], links, a, zones[a])
  {}

  lemma EmptyParts(size: nat, first: int, npages: nat, k: nat, heads: seq<int>)
    requires 0 < k <= npages && |heads| == ZONES && forall i :: 0 <= i < ZONES ==> heads[i] == NULL
    ensures var s := SlabRuns.Empty(size, first + k, first + npages);
            && s.free == PageRuns.Alloc([PageRuns.Run(first, npages)], k).rest && Linked(map[], heads, NULL, s.lists, s.idle)
            && s.size == size && s.usage == map[] && s.zones == map[] && s.idle == []
  {}

  lemma AddrIs(s: Slab, a: int, i: int)
    requires a in s.zones
    ensures Addr(s, Piece(a, i)) == ChunkAddr(a, s.zones[a], i)
  {}

  lemma TakeWritten(size: nat, h: Header, links: map<int, int>, a: int, z: Zone)
    requires ZoneSize(size) && ZoneOk(size, z) && z.Free() > 0 && Written(h, links, a, z)
    ensures h.chunkSize == z.Chunk() && h.nfree == z.Free()
    ensures var (z', i) := TakeChunk(z);
            if h.uindex + 1 != h.nmax then
              && Written(h.(nfree := h.nfree - 1, uindex := h.uindex + 1), links, a, z')
              && h.base + (h.uindex + 1) * h.chunkSize == ChunkAddr(a, z', i)
            else
              && h.freeChunk in links && Written(h.(nfree := h.nfree - 1, freeChunk := links[h.freeChunk]), links, a, z')
              && h.freeChunk == ChunkAddr(a, z', i)
  {
    hide Chain;
    SlabRuns.FreeCounts(size, z);
    if h.uindex + 1 == h.nmax {
      PopChunk(h, links, a, z);
    } else {
      var z' := TakeChunk(z).0;
      assert Addrs(a, z', z'.freed) == Addrs(a, z, z.freed);
    }
  }

  lemma ZoneElsewhere(s: Slab, lo: int, hi: int, a: int)
    requires Loose(s, lo, hi) && a in s.zones
    ensures s.zones[a].index < |s.lists| && Distinct(s.lists[s.zones[a].index]) && a > 0 && ZoneSize(s.size)
    ensures Elsewhere(s.lists, s.idle, s.zones[a].index, a)
    ensures a in s.lists[s.zones[a].index] <==> s.zones[a].Free() > 0
  {
    hide PageRuns.Good, MarkedZone;
    assert IsZone(s, a);
    HeldPositive(s, lo, hi, a);
  }

  lemma HeldPositive(s: Slab, lo: int, hi: int, a: int)
    requires Loose(s, lo, hi) && a in s.held
    ensures a > 0
  {
    SlabRuns.PagesApart(s, lo, hi, a);
  }

  lemma NewWritten(h: Header, links: map<int, int>, a: int, z: Zone)
    requires z.freed == [] && h == Header(z.nmax - 1 - z.uindex, z.nmax, a * PAGE + OffsetOf(z), z.uindex, z.Chunk(), z.index, NULL)
    ensures Written(h, links, a, z)
  {}

  lemma NewZoneIs(s: Slab, zi: nat)
    requires zi < |s.lists| && ChunkOf(zi) > 0
    ensures var n := ZonePages(s.size); var r := PageRuns.Alloc(s.free, n);
            if r.result.Nothing? then NewZone(s, zi) == Result(s, Failed)
            else
              var t := SlabRuns.WithPages(s, n);
              && NewZone(s, zi) == OpenZone(t, r.result.addr, zi)
              && t == s.(free := r.rest, held := t.held, usage := Marked(s.usage, r.result.addr, n))
  {
    hide OpenZone, PageRuns.Alloc, Marked;
  }

  lemma SpareElsewhere(s: Slab, lo: int, hi: int)
    requires Loose(s, lo, hi) && s.idle != []
    ensures |s.lists| == ZONES && s.idle[0] > 0 && s.idle[0] !in s.idle[1..] && s.idle[0] !in s.zones
    ensures forall i :: 0 <= i < |s.lists| ==> s.idle[0] !in s.lists[i]
  {
    hide PageRuns.Good;
    assert s.idle[0] in s.idle && IsZone(s, s.idle[0]);
    TailDistinct(s.idle);
    HeldPositive(s, lo, hi, s.idle[0]);
  }

  lemma GoodFree(s: Slab, n: nat, lo: int, hi: int)
    requires Loose(s, lo, hi) && n > 0
    ensures PageRuns.Alloc(s.free, n).result.Taken? ==> PageRuns.Alloc(s.free, n).result.addr > 0
    ensures PageRuns.Alloc(s.free, n).result.Nothing? ==> PageRuns.Alloc(s.free, n).rest == s.free
  {
    PageCode.NotNull(PageRuns.Pages(s.free, s.held), n, lo, hi);
  }

  lemma NewElsewhere(s: Slab, lo: int, hi: int, n: nat)
    requires Sound(s, lo, hi) && n > 0 && PageRuns.Alloc(s.free, n).result.Taken?
    ensures var a := PageRuns.Alloc(s.free, n).result.addr;
            a !in s.idle && a !in s.zones && forall i :: 0 <= i < |s.lists| ==> a !in s.lists[i]
  {
    hide PageRuns.Good, PageRuns.Alloc;
    SlabRuns.Fresh(s, lo, hi, n);
    assert !IsZone(s, PageRuns.Alloc(s.free, n).result.addr);
  }

  // ---- what the invariant says, for freeing ----

  lemma UsageAt(s: Slab, lo: int, hi: int, ptr: int)
    requires Sound(s, lo, hi) && Live(s, Find(s, ptr)) && Addr(s, Find(s, ptr)) == ptr
    ensures Loose(s, lo, hi) && ptr / PAGE in s.usage
    ensures var p := ptr / PAGE; s.usage[p].Large? ==> p in s.held && s.held[p] == s.usage[p].pages && Find(s, ptr) == Whole(p, s.held[p])
    ensures var p := ptr / PAGE; !s.usage[p].Large? ==>
              s.usage[p].Small? && Find(s, ptr).Piece? && Find(s, ptr).zone == p - s.usage[p].offset
  {
    hide PageRuns.Good, ArrayOk, ZoneOk, MarkedZone, Zone.Used, Zone.Chunk, OffsetOf, IdleOk;
  }

  lemma HeldApart(s: Slab, lo: int, hi: int, p: int)
    requires Loose(s, lo, hi) && p in s.held
    ensures p > 0 && s.held[p] > 0 && PageRuns.Apart(s.free, p, s.held[p])
  {
    hide ArrayOk, IdleOk, HeldOk, PageRuns.Apart;
    PageCode.LiveApart(PageRuns.Pages(s.free, s.held), p, lo, hi);
  }

  lemma PieceInside(s: Slab, lo: int, hi: int, a: int, i: int)
    requires Sound(s, lo, hi) && Live(s, Piece(a, i))
    ensures var z := s.zones[a]; ZoneSize(s.size) && ChunkAddr(a, z, i) !in Addrs(a, z, z.freed)
    ensures var x := ChunkAddr(a, s.zones[a], i); a * PAGE <= x < (a + ZonePages(s.size)) * PAGE && x != NULL
    ensures forall b :: b in s.zones ==> ZoneOk(s.size, s.zones[b])
  {
    hide PageRuns.Good, ArrayOk, HeldOk, IdleOk, Zone.Chunk, OffsetOf, ChunkAddr, Addrs, Capacity, Limit;
    SlabRuns.SoundIsLoose(s, lo, hi);
    AddrUnique(s.size, a, s.zones[a], i);
    InsideZone(s.size, a, s.zones[a], i);
    ZoneElsewhere(s, lo, hi, a);
  }

  lemma NeighboursApart(s: Slab, lo: int, hi: int, a: int)
    requires Loose(s, lo, hi) && a in s.zones
    ensures forall b :: b in s.zones && b != a ==> b + ZonePages(s.size) <= a || a + ZonePages(s.size) <= b
  {
    hide PageRuns.Good, ArrayOk, ZoneOk, IdleOk, MarkedZone;
    assert IsZone(s, a);
    SlabRuns.PagesApart(s, lo, hi, a);
    assert forall b :: b in s.zones ==> IsZone(s, b);
  }

  lemma Nowhere(lists: seq<seq<int>>, idle: seq<int>, zi: nat, l: seq<int>, a: int)
    requires Elsewhere(lists, idle, zi, a) && zi < |lists| && a !in l
    ensures a !in idle
    ensures var lists' := lists[zi := l]; forall i :: 0 <= i < |lists| ==> a !in lists'[i]
  {}

  lemma HeaderIs(h: Header, links: map<int, int>, a: int, z: Zone)
    requires Written(h, links, a, z)
    ensures h.nfree == z.Free() && h.nmax == z.nmax && h.zoneIndex == z.index
  {}

  lemma ListedElsewhere(s: Slab, lo: int, hi: int, zi: nat)
    requires Loose(s, lo, hi) && zi < |s.lists|
    ensures Distinct(s.lists[zi])
    ensures forall x :: x in s.lists[zi] ==> Elsewhere(s.lists, s.idle, zi, x)
  {
    hide Elsewhere, PageRuns.Good, HeldOk;
    assert |s.lists| == ZONES;
    forall x | x in s.lists[zi]
      ensures Elsewhere(s.lists, s.idle, zi, x)
    {
      ZoneElsewhere(s, lo, hi, x);
    }
  }

  lemma FewerWritten(header: map<int, Header>, links: map<int, int>, zones: map<int, Zone>, a: int)
    requires AllWritten(header, links, zones)
    ensures AllWritten(header, links, zones - {a})
  {}

  /** The zone that has just been emptied. */
  lemma ReturnSpare(s: Slab, lo: int, hi: int, a: int)
    requires Sound(s, lo, hi) && a in s.zones && s.zones[a].index < |s.lists| && Retires(s, a)
    ensures Loose(Retire(s, a), lo, hi)
  {
    SlabRuns.RetireSound(s, lo, hi, a);
  }

  lemma SpareHeld(s: Slab, lo: int, hi: int)
    requires Loose(s, lo, hi) && s.idle != []
    ensures s.idle[0] in s.held && s.held[s.idle[0]] == ZonePages(s.size)
  {
    SlabRuns.IdleHeld(s, s.idle[0]);
  }

  lemma PointerIs(s: Slab, lo: int, hi: int, p: int)
    requires Sound(s, lo, hi) && Live(s, Find(s, p)) && Addr(s, Find(s, p)) == p
    ensures p != NULL
  {
    hide Sound, Live, Addr, Find;
    SlabRuns.InHome(s, lo, hi, Find(s, p));
    SlabRuns.SoundIsLoose(s, lo, hi);
    HeldPositive(s, lo, hi, SlabRuns.Home(Find(s, p)));
  }

  /** A pointer is null exactly when nothing was allocated. */
  lemma NullIsFailure(s: Slab, n: nat, lo: int, hi: int)
    requires Sound(s, lo, hi)
    ensures var r := SlabRuns.Malloced(s, n, lo, hi);
            if r.outcome.Failed? then r.state == s else Addr(r.state, r.outcome.block) != NULL
  {
    hide Sound, Addr, Malloc, Find, SlabRuns.Gains;
    SlabRuns.Heads(s, lo, hi);
    SlabRuns.MallocSound(s, lo, hi, n);
    var r := Malloc(s, n);
    if r.outcome.Given? {
      Gained(s, r.state, r.outcome.block);
      SlabRuns.Recovers(r.state, lo, hi, r.outcome.block);
      PointerIs(r.state, lo, hi, Addr(r.state, r.outcome.block));
    }
  }

  lemma Gained(s: Slab, t: Slab, b: Block)
    requires SlabRuns.Gains(s, t, b)
    ensures Live(t, b)
  {}

  // ---- what the invariant says, for bytes ----

  lemma ChunkRoom(s: Slab, lo: int, hi: int, a: int, i: int)
    requires Sound(s, lo, hi) && Live(s, Piece(a, i))
    ensures Bytes(s, Piece(a, i)) >= LINK
  {
    hide PageRuns.Good, ArrayOk, HeldOk, IdleOk;
  }

  lemma ZoneEnd(s: Slab, lo: int, hi: int, a: int)
    requires Sound(s, lo, hi) && IsZone(s, a)
    ensures a in s.held && s.held[a] == ZonePages(s.size) && HEADER <= ZonePages(s.size) * PAGE && a + ZonePages(s.size) <= hi
  {
    hide PageRuns.Good, ArrayOk, IdleOk, MarkedZone;
    SlabRuns.SoundIsLoose(s, lo, hi);
    SlabRuns.PagesApart(s, lo, hi, a);
  }

  lemma SpareEnd(s: Slab, lo: int, hi: int)
    requires Sound(s, lo, hi) && s.idle != []
    ensures s.idle[0] * PAGE + HEADER <= hi * PAGE
  {
    hide Sound;
    assert s.idle[0] in s.idle;
    ZoneEnd(s, lo, hi, s.idle[0]);
  }

  /** No block is live in a spare zone. */
  lemma SpareKept(s: Slab, lo: int, hi: int, d: seq<uint8>, d': seq<uint8>)
    requires Sound(s, lo, hi) && s.idle != [] && |d| == |d'|
    requires forall x :: 0 <= x < |d| && !(s.idle[0] * PAGE <= x < s.idle[0] * PAGE + HEADER) ==> d'[x] == d[x]
    ensures Kept(s, d, d', {})
  {
    hide Sound, Kept, Live;
    var a, n := s.idle[0], ZonePages(s.size);
    assert a in s.idle;
    ZoneEnd(s, lo, hi, a);
    SlabRuns.SoundIsLoose(s, lo, hi);
    SlabRuns.PagesApart(s, lo, hi, a);
    forall c | Live(s, c)
      ensures SlabRuns.Home(c) in s.held ==> SlabRuns.Home(c) + s.held[SlabRuns.Home(c)] <= a || a + n <= SlabRuns.Home(c)
    {
      NotSpare(s, lo, hi, c, a);
    }
    HeaderKept(s, lo, hi, a, n, d, d');
  }

  lemma NotSpare(s: Slab, lo: int, hi: int, c: Block, a: int)
    requires Sound(s, lo, hi) && Live(s, c) && a in s.idle
    ensures SlabRuns.Home(c) != a
  {
    hide PageRuns.Good, ArrayOk, HeldOk, Zone.Used;
  }

  lemma NewEnd(s: Slab, lo: int, hi: int, n: nat)
    requires Sound(s, lo, hi) && n == ZonePages(s.size) && PageRuns.Alloc(s.free, n).result.Taken?
    ensures PageRuns.Alloc(s.free, n).result.addr * PAGE + HEADER <= hi * PAGE
  {
    NewBelow(s, lo, hi, n);
  }

  lemma NewBelow(s: Slab, lo: int, hi: int, n: nat)
    requires Sound(s, lo, hi) && n == ZonePages(s.size) && PageRuns.Alloc(s.free, n).result.Taken?
    ensures n >= 8 && PageRuns.Alloc(s.free, n).result.addr + n <= hi
  {
    hide ArrayOk, HeldOk, IdleOk, PageRuns.Alloc;
    SlabRuns.NormalFree(s, lo, hi);
    PageRuns.AllocSound(s.free, n);
    var a := PageRuns.Alloc(s.free, n).result.addr;
    assert PageRuns.Free(s.free, a + n - 1);
  }

  /** No block is live in pages that were free. */
  lemma NewKept(s: Slab, lo: int, hi: int, n: nat, d: seq<uint8>, d': seq<uint8>)
    requires Sound(s, lo, hi) && n == ZonePages(s.size) && PageRuns.Alloc(s.free, n).result.Taken? && |d| == |d'|
    requires var a := PageRuns.Alloc(s.free, n).result.addr;
             forall x :: 0 <= x < |d| && !(a * PAGE <= x < a * PAGE + HEADER) ==> d'[x] == d[x]
    ensures Kept(s, d, d', {})
  {
    hide Sound, Kept, Live, PageRuns.Alloc;
    NewBelow(s, lo, hi, n);
    SlabRuns.Fresh(s, lo, hi, n);
    HeaderKept(s, lo, hi, PageRuns.Alloc(s.free, n).result.addr, n, d, d');
  }

  /** Source and target of the copy lie in the heap, apart from each other. */
  lemma CopyRoom(s: Slab, m: Slab, lo: int, hi: int, b: Block, c: Block, size: nat)
    requires Sound(s, lo, hi) && Live(s, b) && Sound(m, lo, hi) && SlabRuns.Gains(s, m, c) && Bytes(m, c) >= size
    ensures b != c && Live(m, b) && Live(m, c) && Addr(m, b) == Addr(s, b) && Bytes(m, b) == Bytes(s, b)
    ensures 0 < Addr(m, b) && 0 < Addr(m, c) && Addr(m, b) + Bytes(m, b) <= hi * PAGE && Addr(m, c) + Bytes(m, c) <= hi * PAGE
    ensures Addr(m, b) + Bytes(m, b) <= Addr(m, c) || Addr(m, c) + Bytes(m, c) <= Addr(m, b)
    ensures Bytes(m, b) > 0 && Bytes(m, c) > 0
  {
    hide Sound, Live, Addr, Bytes;
    BlockInside(m, lo, hi, b);
    BlockInside(m, lo, hi, c);
    SlabRuns.LiveApart(m, lo, hi, b, c);
  }

  /** The block that a call frees or resizes. */
  ghost function Named(s: SlabRuns.System, c: SlabRuns.Request): set<Block> {
    if c.Get? || c.ptr !in s.owned then {} else {Find(s.slab, c.ptr)}
  }

  /** No call of a run frees or resizes what p points to. */
  predicate Unnamed(cs: seq<SlabRuns.Request>, p: int) {
    forall i :: 0 <= i < |cs| ==> cs[i].Get? || cs[i].ptr != p
  }

  lemma UnnamedRest(cs: seq<SlabRuns.Request>, p: int)
    requires cs != [] && Unnamed(cs, p)
    ensures (cs[0].Get? || cs[0].ptr != p) && Unnamed(cs[1..], p)
  {}

  lemma BytesChain(d: seq<uint8>, d1: seq<uint8>, d2: seq<uint8>, at: int, n: int)
    requires SameBytes(d, d1, at, at, n) && SameBytes(d1, d2, at, at, n)
    ensures SameBytes(d, d2, at, at, n)
  {}

  lemma OwnedBytes(s: SlabRuns.System, lo: int, hi: int, d: seq<uint8>)
    requires SlabRuns.Consistent(s, lo, hi) && |d| == hi * PAGE
    ensures forall p :: p in s.owned ==> SameBytes(d, d, p, p, s.owned[p])
  {
    hide Sound, Live, Addr, Bytes, Find, SameBytes, Kept;
    forall p | p in s.owned
      ensures SameBytes(d, d, p, p, s.owned[p])
    {
      KeptSelf(s.slab, d, {});
      SlabRuns.OwnedLive(s, p);
      BlockBytes(s.slab, lo, hi, Find(s.slab, p), d, d, {}, s.owned[p]);
    }
  }

  /** Who is not named keeps its pointer. */
  lemma StepOwned(s: SlabRuns.System, c: SlabRuns.Request, lo: int, hi: int, p: int)
    requires SlabRuns.Consistent(s, lo, hi) && p in s.owned && (c.Get? || c.ptr != p)
    ensures p in SlabRuns.Step(s, c, lo, hi).owned && SlabRuns.Step(s, c, lo, hi).owned[p] == s.owned[p]
  {
    hide Sound, Live, Addr, Bytes, Find, SlabRuns.Malloced, SlabRuns.Freed, SlabRuns.Realloced;
    SlabRuns.OwnedLive(s, p);
    var x := Find(s.slab, p);
    match c {
      case Get(n) =>
        if SlabRuns.Malloced(s.slab, n, lo, hi).outcome.Given? {
          var m, b := SlabRuns.Malloced(s.slab, n, lo, hi).state, SlabRuns.Malloced(s.slab, n, lo, hi).outcome.block;
          SlabRuns.StillLive(s.slab, lo, hi, x, n);
          CopyRoom(s.slab, m, lo, hi, x, b, n);
        }
      case Put(q) =>
      case Resize(q, n) =>
        if q in s.owned && n > 0 {
          SlabRuns.OwnedLive(s, q);
          var b := Find(s.slab, q);
          SlabRuns.ReallocSound(s.slab, lo, hi, b, n);
          if SlabRuns.Realloced(s.slab, b, n, lo, hi).outcome.Given? {
            var m, a := SlabRuns.Realloced(s.slab, b, n, lo, hi).state, SlabRuns.Realloced(s.slab, b, n, lo, hi).outcome.block;
            ReplacedApart(s.slab, m, lo, hi, b, a, x);
          }
        }
    }
  }

  lemma ReplacedApart(s: Slab, t: Slab, lo: int, hi: int, b: Block, a: Block, x: Block)
    requires Sound(t, lo, hi) && SlabRuns.Replaces(s, t, b, a) && Live(s, x) && x != b
    ensures Addr(t, a) != Addr(s, x)
  {
    hide Sound, Live, Addr, Bytes;
    SlabRuns.LiveApart(t, lo, hi, a, x);
  }

  lemma StepBytes(s: SlabRuns.System, c: SlabRuns.Request, lo: int, hi: int, p: int, d: seq<uint8>, d1: seq<uint8>)
    requires SlabRuns.Consistent(s, lo, hi) && p in s.owned && (c.Get? || c.ptr != p) && |d| == hi * PAGE && Kept(s.slab, d, d1, Named(s, c))
    ensures SameBytes(d, d1, p, p, s.owned[p])
  {
    hide Sound, Live, Addr, Bytes, Find, SameBytes, Kept;
    SlabRuns.OwnedLive(s, p);
    if !c.Get? && c.ptr in s.owned { SlabRuns.OwnedLive(s, c.ptr); }
    BlockBytes(s.slab, lo, hi, Find(s.slab, p), d, d1, Named(s, c), s.owned[p]);
  }

  lemma BlockKind(s: Slab, b: Block)
    requires Live(s, b)
    ensures b.Whole? ==> Bytes(s, b) == b.pages * PAGE
    ensures b.Piece? ==> b.zone in s.zones && Bytes(s, b) == s.zones[b.zone].Chunk()
  {}

  lemma SameAddress(m: Slab, lo: int, hi: int, b: Block, c: Block)
    requires Sound(m, lo, hi) && Live(m, b) && Live(m, c) && b != c
    ensures Addr(SlabRuns.Freed(m, b, lo, hi), c) == Addr(m, c)
  {
    hide Sound, Live, Addr, Bytes;
    SlabRuns.FreeSound(m, lo, hi, b);
  }

  lemma StillFound(m: Slab, lo: int, hi: int, b: Block, ptr: int)
    requires Sound(m, lo, hi) && Live(m, b) && Addr(m, b) == ptr
    ensures Find(m, ptr) == b
  {
    SlabRuns.Recovers(m, lo, hi, b);
  }

  /** After the copy and the release: the bytes are in the new block, and all other blocks as they were. */
  lemma MovedKept(s: Slab, m: Slab, t: Slab, lo: int, hi: int, b: Block, c: Block, d: seq<uint8>, d1: seq<uint8>, d2: seq<uint8>, d3: seq<uint8>,
                  size: nat, was: int, n: nat)
    requires Sound(s, lo, hi) && Live(s, b) && Sound(m, lo, hi) && SlabRuns.Gains(s, m, c) && Bytes(m, c) >= size >= n && was == Bytes(s, b)
    requires |d| == |d1| == |d2| == |d3| == hi * PAGE && Kept(s, d, d1, {}) && Kept(m, d2, d3, {b})
    requires var k := Min(size, was);
             && 0 <= k && 0 <= Addr(m, c) && Addr(m, c) + k <= |d| && 0 <= Addr(s, b) && Addr(s, b) + k <= |d|
             && d2[Addr(m, c)..Addr(m, c) + k] == d1[Addr(s, b)..Addr(s, b) + k]
             && forall x :: 0 <= x < |d| && !(Addr(m, c) <= x < Addr(m, c) + k) ==> d2[x] == d1[x]
    ensures Kept(s, d, d3, {b}) && SameBytes(d, d3, Addr(s, b), Addr(m, c), Min(was, n))
  {
    hide Sound, Live, Addr, Bytes, Kept, SameBytes;
    CopyRoom(s, m, lo, hi, b, c, size);
    var k := Min(size, was);
    InsideKept(m, lo, hi, c, d1, d2);
    KeptLess(s, d, d1, {b});
    KeptThen(s, m, d, d1, d2, {b}, {c});
    KeptThen(s, m, d, d2, d3, {b}, {b});
    BlockBytes(s, lo, hi, b, d, d1, {}, k);
    BlockBytes(m, lo, hi, c, d2, d3, {b}, k);
    CopiedBytes(d, d1, d2, d3, Addr(s, b), Addr(m, c), k);
    Shorter(d, d3, Addr(s, b), Addr(m, c), k, Min(was, n));
  }

  lemma NullIsFailed(s: Slab, b: Block, n: nat, lo: int, hi: int)
    requires Sound(s, lo, hi) && Live(s, b) && n > 0
    ensures var r := SlabRuns.Realloced(s, b, n, lo, hi);
            if r.outcome.Failed? then r.state == s else Addr(r.state, r.outcome.block) != NULL
  {
    hide Sound, Live, Addr, SlabRuns.Realloced, SlabRuns.Replaces, Find;
    SlabRuns.ReallocSound(s, lo, hi, b, n);
    var r := SlabRuns.Realloced(s, b, n, lo, hi);
    if r.outcome.Given? {
      ReplacedLive(s, r.state, b, r.outcome.block);
      BlockInside(r.state, lo, hi, r.outcome.block);
    }
  }

  lemma ReplacedLive(s: Slab, t: Slab, b: Block, c: Block)
    requires SlabRuns.Replaces(s, t, b, c)
    ensures Live(t, c)
  {}
}
