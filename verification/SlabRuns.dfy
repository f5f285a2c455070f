/** What rt_malloc and rt_free of slab.c keep, over all runs. */
module SlabRuns {
  import opened Rings
  import opened PageRuns
  import opened SlabSizes
  import opened SlabModel

  // ---- one zone ----

  /** The chunks of a zone that are not in use. */
  function Unused(z: Zone): set<int> { set i | 0 <= i < z.nmax && !z.Used(i) }

  /** They were never used, or are on the free-chunk list. */
  lemma UnusedParts(z: Zone)
    requires 0 <= z.uindex < z.nmax && Distinct(z.freed) && forall i :: i in z.freed ==> 0 <= i <= z.uindex
    ensures |Unused(z)| == z.nmax - 1 - z.uindex + |z.freed|
  {
    var all, begun, freed := Range(z.nmax), Range(z.uindex + 1), Elements(z.freed);
    assert Unused(z) == (all - begun) + freed;
    assert all == (all - begun) + begun;
    DistinctSize(z.freed);
  }

  /** z_nfree counts the chunks that are not in use. */
  lemma FreeCounts(size: nat, z: Zone)
    requires ZoneSize(size) && ZoneOk(size, z)
    ensures 0 <= z.Free() <= z.nmax && z.nmax >= 2
    ensures |Unused(z)| == z.Free()
    ensures z.Free() == z.nmax ==> forall i :: !z.Used(i)
    ensures z.Free() > 0 && z.uindex + 1 == z.nmax ==> z.freed != []
  {
    ZoneFits(size, z.index);
    FewBelow(z.freed, z.uindex + 1);
    if z.Free() == z.nmax { Pigeonhole(z.freed, z.uindex + 1); }
    UnusedParts(z);
  }

  lemma TakeChunkOk(size: nat, z: Zone)
    requires ZoneSize(size) && ZoneOk(size, z) && z.Free() > 0
    ensures var (z', i) := TakeChunk(z);
            ZoneOk(size, z') && z'.Free() == z.Free() - 1 && z'.index == z.index && 0 <= i && !z.Used(i)
    ensures var (z', i) := TakeChunk(z); forall j :: z'.Used(j) <==> z.Used(j) || j == i
  {
    FreeCounts(size, z);
    if z.uindex + 1 == z.nmax {
      TailDistinct(z.freed);
      assert z.freed[0] in z.freed;
    }
  }

  lemma ReturnOk(size: nat, z: Zone, i: int)
    requires ZoneOk(size, z) && z.Used(i)
    ensures var z' := z.(freed := [i] + z.freed); ZoneOk(size, z') && z'.Free() == z.Free() + 1
    ensures var z' := z.(freed := [i] + z.freed); forall j :: z'.Used(j) <==> z.Used(j) && j != i
  {
    var f := [i] + z.freed;
    assert forall k :: 0 < k < |f| ==> f[k] == z.freed[k - 1];
    assert forall j :: j in f <==> j == i || j in z.freed;
  }

  lemma NewZoneOk(size: nat, zi: nat)
    requires ZoneSize(size) && zi < ZONES && ChunkOf(zi) <= Limit(size)
    ensures var z := Zone(zi, Capacity(size, ChunkOf(zi)), 0, []); ZoneOk(size, z) && z.Free() > 0 && z.Free() == z.nmax - 1
    ensures var z := Zone(zi, Capacity(size, ChunkOf(zi)), 0, []); forall j :: z.Used(j) <==> j == 0
  {
    ZoneFits(size, zi);
  }

  // ---- the lists of zones ----

  /** A zone whose count of free chunks changes, together with its list. */
  lemma ListsChange(zones: map<int, Zone>, lists: seq<seq<int>>, a: int, z: Zone, list: seq<int>)
    requires ArrayOk(zones, lists) && z.index < ZONES && (a in zones ==> zones[a].index == z.index)
    requires Distinct(list)
    requires forall b :: b in list <==> (b == a && z.Free() > 0) || (b != a && b in lists[z.index])
    ensures ArrayOk(zones[a := z], lists[z.index := list])
  {
    var zones', lists' := zones[a := z], lists[z.index := list];
    forall i, b | 0 <= i < ZONES
      ensures b in lists'[i] <==> b in zones' && zones'[b].index == i && zones'[b].Free() > 0
    {
      assert b in lists[i] <==> b in zones && zones[b].index == i && zones[b].Free() > 0;
    }
  }

  lemma ListsDrop(zones: map<int, Zone>, lists: seq<seq<int>>, a: int)
    requires ArrayOk(zones, lists) && a in zones && zones[a].index < ZONES
    ensures ArrayOk(zones - {a}, lists[zones[a].index := Unlisted(lists[zones[a].index], a)])
  {
    hide Unlisted;
    var zi := zones[a].index;
    var zones', lists' := zones - {a}, lists[zi := Unlisted(lists[zi], a)];
    UnlistedMember(lists[zi], a, a);
    forall i, b | 0 <= i < ZONES
      ensures b in lists'[i] <==> b in zones' && zones'[b].index == i && zones'[b].Free() > 0
    {
      assert b in lists[i] <==> b in zones && zones[b].index == i && zones[b].Free() > 0;
      UnlistedMember(lists[zi], a, b);
    }
  }

  // ---- taking ----

  /** One block more, everything else where it was. */
  ghost predicate Gains(s: Slab, s': Slab, b: Block) {
    && !Live(s, b) && Live(s', b)
    && forall c :: c != b ==> (Live(s', c) <==> Live(s, c)) && (Live(s, c) ==> Addr(s', c) == Addr(s, c) && Bytes(s', c) == Bytes(s, c))
  }

  lemma HeadListed(s: Slab, lo: int, hi: int, zi: nat)
    requires Sound(s, lo, hi) && zi < ZONES && s.lists[zi] != []
    ensures |s.lists| == ZONES
    ensures var a := s.lists[zi][0]; a in s.zones && s.zones[a].index == zi && s.zones[a].Free() > 0 && ZoneOk(s.size, s.zones[a])
  {
    assert s.lists[zi][0] in s.lists[zi];
  }

  lemma TakePieceLists(s: Slab, lo: int, hi: int, zi: nat)
    requires Sound(s, lo, hi) && zi < ZONES && s.lists[zi] != [] && s.lists[zi][0] in s.zones
    ensures ArrayOk(TakePiece(s, zi).state.zones, TakePiece(s, zi).state.lists)
  {
    hide HeldOk, IdleOk, PageRuns.Good;
    HeadListed(s, lo, hi, zi);
    var a, l := s.lists[zi][0], s.lists[zi];
    TakeChunkOk(s.size, s.zones[a]);
    TailDistinct(l);
    var z := TakeChunk(s.zones[a]).0;
    if s.zones[a].Free() == 1 {
      ListsChange(s.zones, s.lists, a, z, l[1..]);
    } else {
      ListsChange(s.zones, s.lists, a, z, l);
      assert s.lists[zi := l] == s.lists;
    }
  }

  lemma TakePieceSound(s: Slab, lo: int, hi: int, zi: nat)
    requires Sound(s, lo, hi) && zi < ZONES && s.lists[zi] != [] && s.lists[zi][0] in s.zones
    ensures var r := TakePiece(s, zi);
            Sound(r.state, lo, hi) && r.outcome.Given? && Gains(s, r.state, r.outcome.block) && Bytes(r.state, r.outcome.block) == ChunkOf(zi)
  {
    hide PageRuns.Good, ArrayOk, TakeChunk, ZoneOk, Zone.Used, Zone.Free;
    HeadListed(s, lo, hi, zi);
    TakePieceLists(s, lo, hi, zi);
    TakeChunkOk(s.size, s.zones[s.lists[zi][0]]);
  }

  lemma OpenZoneLists(zones: map<int, Zone>, lists: seq<seq<int>>, size: nat, a: int, zi: nat)
    requires ZoneSize(size) && ArrayOk(zones, lists) && a !in zones && zi < ZONES && ChunkOf(zi) <= Limit(size)
    ensures var z := Zone(zi, Capacity(size, ChunkOf(zi)), 0, []);
            ZoneOk(size, z) && ArrayOk(zones[a := z], lists[zi := [a] + lists[zi]])
  {
    NewZoneOk(size, zi);
    var l := [a] + lists[zi];
    assert a !in lists[zi];
    assert forall k :: 0 < k < |l| ==> l[k] == lists[zi][k - 1];
    ListsChange(zones, lists, a, Zone(zi, Capacity(size, ChunkOf(zi)), 0, []), l);
  }

  /** What OpenZone needs: a is held as a zone, but not in use. */
  ghost predicate Spare(s: Slab, a: int) {
    a in s.held && s.held[a] == ZonePages(s.size) && MarkedZone(s.usage, a, ZonePages(s.size)) && a !in s.zones && a !in s.idle
  }

  /** The invariant without zone a, which is being set up. */
  ghost predicate SoundBut(s: Slab, a: int, lo: int, hi: int) {
    && ZoneSize(s.size) && 0 < lo && PageRuns.Good(Pages(s.free, s.held), lo, hi)
    && ArrayOk(s.zones, s.lists) && IdleOk(s) && |s.idle| <= KEPT
    && (forall b :: IsZone(s, b) ==> b in s.held && s.held[b] == ZonePages(s.size) && MarkedZone(s.usage, b, ZonePages(s.size)))
    && (forall b :: b in s.held && !IsZone(s, b) && b != a ==> b in s.usage && s.usage[b] == Large(s.held[b]))
    && forall b :: b in s.zones ==> ZoneOk(s.size, s.zones[b])
  }

  lemma OpenZoneSound(s: Slab, a: int, lo: int, hi: int, zi: nat)
    requires SoundBut(s, a, lo, hi) && Spare(s, a) && zi < ZONES && ChunkOf(zi) <= Limit(s.size)
    ensures OpenZone(s, a, zi).outcome == Given(Piece(a, 0))
    ensures var t := OpenZone(s, a, zi).state; Sound(t, lo, hi) && Live(t, Piece(a, 0)) && Bytes(t, Piece(a, 0)) == ChunkOf(zi)
    ensures var t := OpenZone(s, a, zi).state; forall b :: b != Piece(a, 0) && (b.Whole? ==> b.page != a) ==> (Live(t, b) <==> Live(s, b))
    ensures var t := OpenZone(s, a, zi).state; forall b :: Live(s, b) && (b.Whole? ==> b.page != a) ==>
              Addr(t, b) == Addr(s, b) && Bytes(t, b) == Bytes(s, b)
    ensures var t := OpenZone(s, a, zi).state; forall n :: !Live(t, Whole(a, n))
  {
    hide PageRuns.Good, ArrayOk, ZoneOk, MarkedZone, Zone.Free, Capacity, Limit, ZonePages;
    OpenZoneLists(s.zones, s.lists, s.size, a, zi);
    NewZoneOk(s.size, zi);
  }

  lemma IdleZoneSound(s: Slab, lo: int, hi: int, zi: nat)
    requires Sound(s, lo, hi) && s.idle != [] && zi < ZONES && ChunkOf(zi) <= Limit(s.size)
    ensures |s.lists| == ZONES
    ensures var r := OpenZone(s.(idle := s.idle[1..]), s.idle[0], zi);
            Sound(r.state, lo, hi) && Gains(s, r.state, Piece(s.idle[0], 0)) && Bytes(r.state, Piece(s.idle[0], 0)) == ChunkOf(zi)
  {
    hide PageRuns.Good, ZoneOk, MarkedZone, Zone.Free, Capacity, Limit, ZonePages;
    var a, t := s.idle[0], s.(idle := s.idle[1..]);
    TailDistinct(s.idle);
    assert a in s.idle;
    assert IsZone(s, a);
    forall b
      ensures IsZone(t, b) <==> IsZone(s, b) && b != a
    {}
    OpenZoneSound(t, a, lo, hi, zi);
  }

  /** The pages the allocator hands out were not held, and lie apart from everything held. */
  lemma Fresh(s: Slab, lo: int, hi: int, n: nat)
    requires Sound(s, lo, hi) && n > 0 && Alloc(s.free, n).result.Taken?
    ensures var r := Alloc(s.free, n); PageRuns.Good(Pages(r.rest, s.held[r.result.addr := n]), lo, hi)
    ensures var a := Alloc(s.free, n).result.addr; a !in s.held && a >= lo > 0
    ensures var a := Alloc(s.free, n).result.addr;
            forall b :: b in s.held ==> s.held[b] > 0 && (b + s.held[b] <= a || a + n <= b)
  {
    hide ArrayOk, HeldOk, IdleOk;
    var p := Pages(s.free, s.held);
    var r := Alloc(s.free, n);
    TakeGood(p, n, lo, hi);
    AllocSound(s.free, n);
    TakenApart(p, r.result.addr, n, lo, hi);
    assert PageRuns.Free(s.free, r.result.addr);
  }

  lemma NewZoneSound(s: Slab, lo: int, hi: int, zi: nat)
    requires Sound(s, lo, hi) && zi < ZONES && ChunkOf(zi) <= Limit(s.size)
    ensures |s.lists| == ZONES
    ensures var r := NewZone(s, zi); r.outcome.Failed? ==> r.state == s
    ensures var r := NewZone(s, zi); r.outcome.Failed? <==> !exists a :: Stretch(s.free, a, ZonePages(s.size))
    ensures var r := NewZone(s, zi); r.outcome.Given? ==>
              Sound(r.state, lo, hi) && Gains(s, r.state, r.outcome.block) && Bytes(r.state, r.outcome.block) == ChunkOf(zi)
  {
    hide PageRuns.Good, ZoneOk, Zone.Free, Capacity, Limit, Alloc, ArrayOk, HeldOk, IdleOk, MarkedZone, OpenZone, Sound;
    var n := ZonePages(s.size);
    NormalFree(s, lo, hi);
    AllocFails(s.free, n);
    if Alloc(s.free, n).result.Taken? {
      var t := WithPages(s, n);
      var a := Alloc(s.free, n).result.addr;
      NewPagesSound(s, lo, hi, n);
      OpenZoneSound(t, a, lo, hi, zi);
      NewPagesGain(s, lo, hi, n, OpenZone(t, a, zi).state, a);
    }
  }

  /** n pages for a zone, taken and marked. */
  function WithPages(s: Slab, n: nat): Slab
    requires Alloc(s.free, n).result.Taken?
  {
    var r := Alloc(s.free, n);
    s.(free := r.rest, held := s.held[r.result.addr := n], usage := Marked(s.usage, r.result.addr, n))
  }

  lemma NewPagesSound(s: Slab, lo: int, hi: int, n: nat)
    requires Sound(s, lo, hi) && n == ZonePages(s.size) && Alloc(s.free, n).result.Taken?
    ensures var a := Alloc(s.free, n).result.addr; SoundBut(WithPages(s, n), a, lo, hi) && Spare(WithPages(s, n), a)
  {
    hide PageRuns.Good, ZoneOk, Zone.Free, Alloc, ArrayOk, MarkedZone;
    NormalFree(s, lo, hi);
    Fresh(s, lo, hi, n);
    OthersMarked(s, Alloc(s.free, n).result.addr, n);
    ItselfMarked(s.usage, Alloc(s.free, n).result.addr, n);
  }

  lemma ItselfMarked(usage: map<int, Usage>, a: int, n: nat)
    ensures MarkedZone(Marked(usage, a, n), a, n)
  {}

  lemma NewPagesGain(s: Slab, lo: int, hi: int, n: nat, t: Slab, a: int)
    requires Sound(s, lo, hi) && n == ZonePages(s.size) && Alloc(s.free, n).result.Taken? && a == Alloc(s.free, n).result.addr
    requires Live(t, Piece(a, 0)) && forall k :: !Live(t, Whole(a, k))
    requires forall b :: b != Piece(a, 0) && (b.Whole? ==> b.page != a) ==> (Live(t, b) <==> Live(WithPages(s, n), b))
    requires forall b :: Live(WithPages(s, n), b) && (b.Whole? ==> b.page != a) ==>
               Addr(t, b) == Addr(WithPages(s, n), b) && Bytes(t, b) == Bytes(WithPages(s, n), b)
    ensures Gains(s, t, Piece(a, 0))
  {
    hide PageRuns.Good, ZoneOk, Zone.Free, Zone.Used, Alloc, ArrayOk, IdleOk, MarkedZone, Marked;
    NormalFree(s, lo, hi);
    Fresh(s, lo, hi, n);
    forall b: Block | b.Whole? && b.page == a
      ensures !Live(s, b)
    {}
    forall b: Block | b.Piece? || b.page != a
      ensures Live(WithPages(s, n), b) <==> Live(s, b)
    {}
  }

  lemma NormalFree(s: Slab, lo: int, hi: int)
    requires Sound(s, lo, hi)
    ensures Normal(s.free) && ZonePages(s.size) > 0 && |s.lists| == ZONES && ZoneSize(s.size)
  {}

  /** Marking new pages leaves the marks of other zones and of large allocations. */
  lemma OthersMarked(s: Slab, a: int, n: nat)
    requires HeldOk(s) && forall b :: b in s.held ==> s.held[b] > 0 && (b + s.held[b] <= a || a + n <= b)
    ensures forall b :: IsZone(s, b) ==> MarkedZone(Marked(s.usage, a, n), b, ZonePages(s.size))
    ensures forall b :: b in s.held && !IsZone(s, b) ==> b in Marked(s.usage, a, n) && Marked(s.usage, a, n)[b] == Large(s.held[b])
  {}

  lemma PagesEnough(n: nat)
    requires n > 0
    ensures PagesOf(n) > 0 && PagesOf(n) * PAGE >= n
  {
    RoundUpIs(n, PAGE);
  }

  lemma TakeLargeSound(s: Slab, lo: int, hi: int, n: nat)
    requires Sound(s, lo, hi) && n > 0
    ensures var r := TakeLarge(s, n); r.outcome.Failed? ==> r.state == s
    ensures var r := TakeLarge(s, n); r.outcome.Failed? <==> !exists a :: Stretch(s.free, a, PagesOf(n))
    ensures var r := TakeLarge(s, n); r.outcome.Given? ==>
              Sound(r.state, lo, hi) && Gains(s, r.state, r.outcome.block) && Bytes(r.state, r.outcome.block) >= n
  {
    hide PageRuns.Good, ZoneOk, Zone.Free, Zone.Used, Alloc, ArrayOk, PagesOf, HeldOk, Gains;
    PagesEnough(n);
    HeldSound(s, lo, hi);
    NormalFree(s, lo, hi);
    AllocFails(s.free, PagesOf(n));
    if Alloc(s.free, PagesOf(n)).result.Taken? {
      var a := Alloc(s.free, PagesOf(n)).result.addr;
      Fresh(s, lo, hi, PagesOf(n));
      OtherMarked(s, a, PagesOf(n), Large(PagesOf(n)));
      LargeHeld(s, TakeLarge(s, n).state, a);
      LargeGains(s, TakeLarge(s, n).state, a);
    }
  }

  lemma HeldSound(s: Slab, lo: int, hi: int)
    requires Loose(s, lo, hi)
    ensures HeldOk(s)
  {}

  lemma LargeHeld(s: Slab, t: Slab, a: int)
    requires HeldOk(s) && a !in s.held && a in t.held && t.held[a] >= 0 && a in t.usage && t.usage[a] == Large(t.held[a])
    requires t == s.(free := t.free, held := s.held[a := t.held[a]], usage := t.usage)
    requires forall b :: IsZone(s, b) && b != a ==> MarkedZone(t.usage, b, ZonePages(s.size))
    requires forall b :: b in s.held && !IsZone(s, b) && b != a ==> b in t.usage && t.usage[b] == Large(s.held[b])
    ensures HeldOk(t)
  {
    hide MarkedZone, ZonePages;
  }

  lemma LargeGains(s: Slab, t: Slab, a: int)
    requires HeldOk(s) && a !in s.held && a in t.held
    requires t == s.(free := t.free, held := s.held[a := t.held[a]], usage := t.usage)
    ensures Gains(s, t, Whole(a, t.held[a]))
  {
    hide MarkedZone, ZonePages, Zone.Used;
  }

  /** Writing the memusage of a page that belongs to nothing else. */
  lemma OtherMarked(s: Slab, a: int, n: nat, u: Usage)
    requires HeldOk(s) && n > 0
    requires forall b :: b in s.held && b != a ==> s.held[b] > 0 && (b + s.held[b] <= a || a + n <= b)
    ensures forall b :: IsZone(s, b) && b != a ==> MarkedZone(s.usage[a := u], b, ZonePages(s.size))
    ensures forall b :: b in s.held && !IsZone(s, b) && b != a ==> b in s.usage[a := u] && s.usage[a := u][b] == Large(s.held[b])
  {}

  /** rt_malloc: it fails only for want of pages, and otherwise one block with room appears. */
  lemma MallocSound(s: Slab, lo: int, hi: int, n: nat)
    requires Sound(s, lo, hi)
    ensures |s.lists| == ZONES && forall i :: 0 <= i < ZONES && s.lists[i] != [] ==> s.lists[i][0] in s.zones
    ensures var r := Malloc(s, n); r.outcome.Failed? ==> r.state == s
    ensures var r := Malloc(s, n); r.outcome.Failed? <==> n == 0 || NoRoom(s, n)
    ensures var r := Malloc(s, n); r.outcome.Given? ==>
              Sound(r.state, lo, hi) && Gains(s, r.state, r.outcome.block) && Bytes(r.state, r.outcome.block) >= n
  {
    hide PageRuns.Good, ArrayOk, HeldOk, IdleOk, Sound, TakePiece, OpenZone, NewZone, TakeLarge, Gains, ChunkOf, ZonePages;
    Heads(s, lo, hi);
    if 0 < n < Limit(s.size) {
      var zi := IndexOfSize(n);
      ChunkBelow(s.size, n);
      if s.lists[zi] != [] {
        TakePieceSound(s, lo, hi, zi);
      } else if s.idle != [] {
        IdleZoneSound(s, lo, hi, zi);
        OpenGives(s.(idle := s.idle[1..]), s.idle[0], zi);
      } else {
        NewZoneSound(s, lo, hi, zi);
      }
    } else if n > 0 {
      TakeLargeSound(s, lo, hi, n);
    }
  }

  /** No free chunk of the size, no spare zone, and no run of free pages that is long enough. */
  ghost predicate NoRoom(s: Slab, n: nat) {
    if n >= Limit(s.size) then !exists a :: Stretch(s.free, a, PagesOf(n))
    else if n == 0 then false
    else
      var zi := IndexOfSize(n);
      zi < |s.lists| && s.lists[zi] == [] && s.idle == [] && !exists a :: Stretch(s.free, a, ZonePages(s.size))
  }

  lemma OpenGives(s: Slab, a: int, zi: nat)
    requires zi < |s.lists| && ChunkOf(zi) > 0
    ensures OpenZone(s, a, zi).outcome == Given(Piece(a, 0))
  {}

  lemma Heads(s: Slab, lo: int, hi: int)
    requires Sound(s, lo, hi)
    ensures ZoneSize(s.size) && |s.lists| == ZONES
    ensures forall i :: 0 <= i < ZONES && s.lists[i] != [] ==> s.lists[i][0] in s.zones
  {
    forall i | 0 <= i < ZONES && s.lists[i] != []
      ensures s.lists[i][0] in s.zones
    {
      HeadListed(s, lo, hi, i);
    }
  }

  /** Below the limit the chunk size does not exceed the limit. */
  lemma ChunkBelow(size: nat, n: nat)
    requires ZoneSize(size) && 0 < n < Limit(size)
    ensures n < 16384 && n <= ChunkOf(IndexOfSize(n)) <= Limit(size)
  {
    var last := if size == 0x8000 then 63 else 71;
    assert ChunkOf(last) == Limit(size);
    AtMost(n, last);
  }

  lemma AtMost(n: nat, last: nat)
    requires 0 < n < 16384 && last < ZONES && n <= ChunkOf(last)
    ensures ChunkOf(IndexOfSize(n)) <= ChunkOf(last)
  {
    hide ChunkOf;
    var i := IndexOfSize(n);
    if i < last { ChunkGrows(i, last); }
    if last < i && last < i - 1 { ChunkGrows(last, i - 1); }
  }

  // ---- giving back ----

  /** One block less, everything else where it was. */
  ghost predicate Loses(s: Slab, s': Slab, b: Block) {
    && Live(s, b) && !Live(s', b)
    && forall c :: c != b ==> (Live(s', c) <==> Live(s, c)) && (Live(s, c) ==> Addr(s', c) == Addr(s, c) && Bytes(s', c) == Bytes(s, c))
  }

  lemma ReturnLists(s: Slab, lo: int, hi: int, a: int, i: int)
    requires Loose(s, lo, hi) && Live(s, Piece(a, i))
    ensures s.zones[a].index < |s.lists| && ArrayOk(ReturnChunk(s, a, i).zones, ReturnChunk(s, a, i).lists)
  {
    hide HeldOk, IdleOk, PageRuns.Good;
    var z := s.zones[a];
    FreeCounts(s.size, z);
    ReturnOk(s.size, z, i);
    var z', l := z.(freed := [i] + z.freed), s.lists[z.index];
    if z.Free() == 0 {
      assert a !in l;
      assert forall k :: 0 < k <= |l| ==> ([a] + l)[k] == l[k - 1];
      ListsChange(s.zones, s.lists, a, z', [a] + l);
    } else {
      ListsChange(s.zones, s.lists, a, z', l);
      assert s.lists[z.index := l] == s.lists;
    }
  }

  lemma ReturnSound(s: Slab, lo: int, hi: int, a: int, i: int)
    requires Sound(s, lo, hi) && Live(s, Piece(a, i))
    ensures s.zones[a].index < |s.lists| && Sound(ReturnChunk(s, a, i), lo, hi) && Loses(s, ReturnChunk(s, a, i), Piece(a, i))
    ensures a in ReturnChunk(s, a, i).zones && ReturnChunk(s, a, i).zones[a].Free() > 0
  {
    hide PageRuns.Good, ArrayOk, ZoneOk, Zone.Used, Zone.Free;
    ReturnLists(s, lo, hi, a, i);
    ReturnOk(s.size, s.zones[a], i);
    FreePositive(s.size, s.zones[a]);
  }

  lemma FreePositive(size: nat, z: Zone)
    requires ZoneSize(size) && ZoneOk(size, z)
    ensures z.Free() >= 0
  {
    FreeCounts(size, z);
  }

  /** The same blocks live at the same places. */
  ghost predicate Keeps(s: Slab, s': Slab) {
    forall c :: (Live(s', c) <==> Live(s, c)) && (Live(s, c) ==> Addr(s', c) == Addr(s, c) && Bytes(s', c) == Bytes(s, c))
  }

  lemma RetireSound(s: Slab, lo: int, hi: int, a: int)
    requires Sound(s, lo, hi) && a in s.zones && s.zones[a].index < |s.lists| && Retires(s, a)
    ensures Loose(Retire(s, a), lo, hi) && Keeps(s, Retire(s, a))
  {
    hide PageRuns.Good, ArrayOk, ZoneOk, Unlisted, MarkedZone;
    FreeNone(s.size, s.zones[a]);
    ListsDrop(s.zones, s.lists, a);
    var t := Retire(s, a);
    assert forall k :: 0 < k < |t.idle| ==> t.idle[k] == s.idle[k - 1];
    assert forall b :: IsZone(t, b) <==> IsZone(s, b);
  }

  lemma FreeNone(size: nat, z: Zone)
    requires ZoneSize(size) && ZoneOk(size, z) && z.Free() == z.nmax
    ensures z.index < ZONES && forall i :: !z.Used(i)
  {
    FreeCounts(size, z);
  }

  /** What a release of held pages leaves. */
  lemma GivenBack(s: Slab, lo: int, hi: int, a: int)
    requires Loose(s, lo, hi) && a in s.held
    ensures s.held[a] > 0 && PageRuns.Good(Pages(Release(s.free, a, s.held[a]), s.held - {a}), lo, hi)
    ensures forall b :: b in s.held && b != a ==> s.held[b] > 0 && (b + s.held[b] <= a || a + s.held[a] <= b)
  {
    hide ArrayOk, HeldOk, IdleOk;
    GiveGood(Pages(s.free, s.held), a, lo, hi);
  }

  lemma OthersCleared(s: Slab, a: int, n: nat)
    requires HeldOk(s) && forall b :: b in s.held && b != a ==> s.held[b] > 0 && (b + s.held[b] <= a || a + n <= b)
    ensures forall b :: IsZone(s, b) && b != a ==> MarkedZone(Cleared(s.usage, a, n), b, ZonePages(s.size))
    ensures forall b :: b in s.held && !IsZone(s, b) && b != a ==> b in Cleared(s.usage, a, n) && Cleared(s.usage, a, n)[b] == Large(s.held[b])
  {}

  /** Everything but block a of pages, with its own marks gone, stays as held. */
  lemma HeldLess(s: Slab, t: Slab, a: int)
    requires HeldOk(s) && a in s.held && !IsZone(t, a)
    requires t == s.(free := t.free, held := s.held - {a}, idle := t.idle, usage := t.usage)
    requires forall b :: b in t.idle <==> b in s.idle && b != a
    requires forall b :: IsZone(s, b) && b != a ==> MarkedZone(t.usage, b, ZonePages(s.size))
    requires forall b :: b in s.held && !IsZone(s, b) && b != a ==> b in t.usage && t.usage[b] == Large(s.held[b])
    ensures HeldOk(t)
  {
    hide MarkedZone, ZonePages;
    assert forall b :: b != a ==> (IsZone(t, b) <==> IsZone(s, b));
  }

  lemma HeldLessKeeps(s: Slab, t: Slab, a: int)
    requires HeldOk(s) && a in s.idle
    requires t == s.(free := t.free, held := s.held - {a}, idle := t.idle, usage := t.usage)
    requires forall b :: b in t.idle <==> b in s.idle && b != a
    ensures Keeps(s, t)
  {
    hide MarkedZone, ZonePages, Zone.Used;
    assert IsZone(s, a);
    assert forall b :: b != a ==> (IsZone(t, b) <==> IsZone(s, b));
  }

  lemma TrimSound(s: Slab, lo: int, hi: int)
    requires Loose(s, lo, hi) && |s.idle| <= KEPT + 1
    ensures Sound(Trim(s), lo, hi) && Keeps(s, Trim(s))
  {
    hide PageRuns.Good, ArrayOk, ZoneOk, MarkedZone, Release, Zone.Used, HeldOk, Cleared, Keeps, ZonePages, Addr, Bytes;
    if |s.idle| > KEPT {
      var a, n := s.idle[0], ZonePages(s.size);
      TailDistinct(s.idle);
      IdleHeld(s, a);
      GivenBack(s, lo, hi, a);
      OthersCleared(s, a, n);
      HeldLess(s, Trim(s), a);
      HeldLessKeeps(s, Trim(s), a);
    } else {
      KeepsSelf(s);
    }
  }

  lemma KeepsSelf(s: Slab)
    ensures Keeps(s, s)
  {}

  lemma IdleHeld(s: Slab, a: int)
    requires HeldOk(s) && a in s.idle
    ensures a in s.held && s.held[a] == ZonePages(s.size)
  {
    assert IsZone(s, a);
  }

  lemma FreePieceSound(s: Slab, lo: int, hi: int, a: int, i: int)
    requires Sound(s, lo, hi) && Live(s, Piece(a, i))
    ensures s.zones[a].index < |s.lists| && Sound(FreePiece(s, a, i), lo, hi) && Loses(s, FreePiece(s, a, i), Piece(a, i))
  {
    hide Sound, Loose, Live, Addr, Bytes, ReturnChunk, Retire, Trim;
    LiveZone(s, a, i);
    ReturnSound(s, lo, hi, a, i);
    var r := ReturnChunk(s, a, i);
    ReturnIndex(s, a, i);
    SoundIsLoose(s, lo, hi);
    SoundIsLoose(r, lo, hi);
    if Retires(r, a) {
      RetireSound(r, lo, hi, a);
      RetireIdle(r, a);
      TrimSound(Retire(r, a), lo, hi);
    }
  }

  lemma LiveZone(s: Slab, a: int, i: int)
    requires Live(s, Piece(a, i))
    ensures a in s.zones
  {}

  lemma SoundIsLoose(s: Slab, lo: int, hi: int)
    requires Sound(s, lo, hi)
    ensures Loose(s, lo, hi) && |s.idle| <= KEPT
  {}

  lemma ReturnIndex(s: Slab, a: int, i: int)
    requires a in s.zones && s.zones[a].index < |s.lists|
    ensures a in ReturnChunk(s, a, i).zones && ReturnChunk(s, a, i).zones[a].index < |ReturnChunk(s, a, i).lists|
  {}

  lemma RetireIdle(s: Slab, a: int)
    requires a in s.zones && s.zones[a].index < |s.lists|
    ensures |Retire(s, a).idle| == |s.idle| + 1
  {}

  lemma FreeLargeSound(s: Slab, lo: int, hi: int, p: int, n: int)
    requires Sound(s, lo, hi) && Live(s, Whole(p, n))
    ensures Sound(FreeLarge(s, p, n), lo, hi) && Loses(s, FreeLarge(s, p, n), Whole(p, n))
  {
    hide PageRuns.Good, ArrayOk, ZoneOk, MarkedZone, Release, Zone.Used;
    GivenBack(s, lo, hi, p);
    OtherMarked(s, p, s.held[p], Large(0));
    var t := FreeLarge(s, p, n);
    assert forall b :: IsZone(t, b) <==> IsZone(s, b);
    assert HeldOk(t);
  }

  // ---- pointers ----

  /** Where a live chunk lies: behind the header of its zone, and before its end. */
  lemma PieceWithin(s: Slab, lo: int, hi: int, a: int, i: int)
    requires Sound(s, lo, hi) && Live(s, Piece(a, i))
    ensures var z := s.zones[a]; z.Chunk() > 0 && Addr(s, Piece(a, i)) == a * PAGE + OffsetOf(z) + i * z.Chunk() && i >= 0
    ensures var z := s.zones[a]; HEADER <= OffsetOf(z) && OffsetOf(z) + i * z.Chunk() + z.Chunk() <= s.size
    ensures Bytes(s, Piece(a, i)) == s.zones[a].Chunk()
    ensures a in s.held && s.held[a] == ZonePages(s.size) && MarkedZone(s.usage, a, ZonePages(s.size))
  {
    hide PageRuns.Good, ArrayOk, MarkedZone, Capacity, Offset, Limit, ZoneSize;
    var z := s.zones[a];
    ZoneFits(s.size, z.index);
    ChunkEnd(i, z.nmax, z.Chunk());
    assert IsZone(s, a);
  }

  /** rt_free finds the very block that a pointer stands for. */
  lemma Recovers(s: Slab, lo: int, hi: int, b: Block)
    requires Sound(s, lo, hi) && Live(s, b)
    ensures Find(s, Addr(s, b)) == b
  {
    hide Sound, Find, OffsetOf, Zone.Chunk, Addr;
    match b {
      case Piece(a, i) =>
        PieceWithin(s, lo, hi, a, i);
        var z := s.zones[a];
        PieceFound(s, lo, hi, a, i, z.Chunk(), OffsetOf(z));
      case Whole(p, n) =>
        WholeFound(s, lo, hi, p, n);
    }
  }

  /** Blocks whose size is a power of two: a chunk of at most a page is aligned to its size, a larger one exactly
      when its zone is. */
  lemma PowerOfTwoAligned(s: Slab, lo: int, hi: int, a: int, i: int)
    requires Sound(s, lo, hi) && Live(s, Piece(a, i)) && PowerOfTwo(s.zones[a].Chunk())
    ensures a in s.zones
    ensures var c := s.zones[a].Chunk(); c > 0 && (Addr(s, Piece(a, i)) % c == 0 <==> c <= PAGE || a * PAGE % c == 0)
  {
    hide Sound, Addr, Bytes, Live, PowerOfTwo, Zone.Chunk;
    LiveZone(s, a, i);
    PieceWithin(s, lo, hi, a, i);
    var c := s.zones[a].Chunk();
    SoundIsLoose(s, lo, hi);
    PagesApart(s, lo, hi, a);
    Based(s, lo, hi);
    assert OffsetOf(s.zones[a]) == Offset(c);
    PowerAligned(a * PAGE, c, i);
    if c <= PAGE { PageAligned(a, c); }
  }

  lemma Based(s: Slab, lo: int, hi: int)
    requires Sound(s, lo, hi)
    ensures lo > 0
  {}

  lemma PieceFound(s: Slab, lo: int, hi: int, a: int, i: int, c: nat, o: nat)
    requires Sound(s, lo, hi) && a in s.zones && c == s.zones[a].Chunk() > 0 && o == OffsetOf(s.zones[a]) && i >= 0
    requires 0 <= o + i * c < s.size && MarkedZone(s.usage, a, ZonePages(s.size))
    ensures Find(s, a * PAGE + o + i * c) == Piece(a, i)
  {
    hide OffsetOf, Zone.Chunk, PageRuns.Good, ArrayOk, ZoneOk, HeldOk, IdleOk;
    PageOf(a, o + i * c, s.size);
    var p := (a * PAGE + o + i * c) / PAGE;
    assert s.usage[p] == Small(p - a);
    ModShift(0, i, c);
  }

  lemma PageOf(a: int, x: nat, size: nat)
    requires ZoneSize(size) && x < size
    ensures a <= (a * PAGE + x) / PAGE < a + ZonePages(size)
  {}

  lemma WholeFound(s: Slab, lo: int, hi: int, p: int, n: int)
    requires Sound(s, lo, hi) && Live(s, Whole(p, n))
    ensures Addr(s, Whole(p, n)) == p * PAGE && Find(s, p * PAGE) == Whole(p, n)
  {
    hide PageRuns.Good, ArrayOk, ZoneOk, IdleOk, MarkedZone;
    assert p * PAGE / PAGE == p;
  }

  lemma PagesApart(s: Slab, lo: int, hi: int, a: int)
    requires Loose(s, lo, hi) && a in s.held
    ensures s.held[a] > 0 && lo <= a && a + s.held[a] <= hi
    ensures forall b :: b in s.held && b != a ==> a + s.held[a] <= b || b + s.held[b] <= a
  {
    hide ArrayOk, IdleOk, HeldOk, Normal;
    assert PageRuns.Used(s.held, a) && PageRuns.Used(s.held, a + s.held[a] - 1);
  }

  /** The page where the held pages of a block begin. */
  function Home(b: Block): int {
    match b
    case Piece(a, _) => a
    case Whole(p, _) => p
  }

  lemma InHome(s: Slab, lo: int, hi: int, b: Block)
    requires Sound(s, lo, hi) && Live(s, b)
    ensures var a := Home(b); a in s.held && a * PAGE <= Addr(s, b) && Addr(s, b) + Bytes(s, b) <= (a + s.held[a]) * PAGE
    ensures Bytes(s, b) > 0
  {
    hide PageRuns.Good, ArrayOk, ZoneOk, Limit, Capacity, IdleOk, Zone.Used, Offset;
    match b {
      case Piece(a, i) =>
        PieceWithin(s, lo, hi, a, i);
        assert s.zones[a].Chunk() * i >= 0;
      case Whole(p, n) =>
        PagesApart(s, lo, hi, p);
    }
  }

  /** Live blocks are inside the heap, and do not overlap. */
  lemma LiveApart(s: Slab, lo: int, hi: int, b: Block, c: Block)
    requires Sound(s, lo, hi) && Live(s, b) && Live(s, c) && b != c
    ensures lo * PAGE <= Addr(s, b) < Addr(s, b) + Bytes(s, b) <= hi * PAGE && Bytes(s, c) > 0
    ensures Addr(s, b) + Bytes(s, b) <= Addr(s, c) || Addr(s, c) + Bytes(s, c) <= Addr(s, b)
  {
    hide Sound, Addr, Bytes, Live;
    InHome(s, lo, hi, b);
    InHome(s, lo, hi, c);
    SoundIsLoose(s, lo, hi);
    PagesApart(s, lo, hi, Home(b));
    if Home(b) == Home(c) { SameHome(s, lo, hi, b, c); }
  }

  lemma SameHome(s: Slab, lo: int, hi: int, b: Block, c: Block)
    requires Sound(s, lo, hi) && Live(s, b) && Live(s, c) && b != c && Home(b) == Home(c)
    ensures Addr(s, b) + Bytes(s, b) <= Addr(s, c) || Addr(s, c) + Bytes(s, c) <= Addr(s, b)
  {
    hide PageRuns.Good, ArrayOk, ZoneOk, HeldOk, IdleOk, Zone.Used, Zone.Chunk, OffsetOf;
    if b.Piece? && c.Piece? {
      PieceWithin(s, lo, hi, b.zone, b.chunk);
      PieceWithin(s, lo, hi, c.zone, c.chunk);
      var i, j, k := b.chunk, c.chunk, s.zones[b.zone].Chunk();
      if i < j { ChunkEnd(i, j, k); } else { ChunkEnd(j, i, k); }
    }
  }

  // ---- runs ----

  datatype Request = Get(n: nat) | Put(ptr: int) | Resize(ptr: int, n: nat)

  /** The heap, and the pointers that callers hold with the sizes they asked for. */
  datatype System = System(slab: Slab, owned: map<int, nat>)

  /** Callers hold one pointer to the start of each live block, which has the room they asked for. */
  ghost predicate Owns(s: Slab, owned: map<int, nat>) {
    && (forall b :: Live(s, b) ==> Addr(s, b) in owned && owned[Addr(s, b)] <= Bytes(s, b))
    && forall p :: p in owned ==> Live(s, Find(s, p)) && Addr(s, Find(s, p)) == p
  }

  ghost predicate Consistent(s: System, lo: int, hi: int) {
    Sound(s.slab, lo, hi) && Owns(s.slab, s.owned)
  }

  lemma OwnsGained(s: Slab, t: Slab, b: Block, owned: map<int, nat>, n: nat, lo: int, hi: int)
    requires Sound(s, lo, hi) && Owns(s, owned) && Sound(t, lo, hi) && Gains(s, t, b) && n <= Bytes(t, b)
    ensures Owns(t, owned[Addr(t, b) := n])
  {
    hide Sound, Live, Addr, Bytes, Find;
    var owned' := owned[Addr(t, b) := n];
    forall c | Live(t, c)
      ensures Addr(t, c) in owned' && owned'[Addr(t, c)] <= Bytes(t, c)
    {
      if c != b { LiveApart(t, lo, hi, b, c); }
    }
    forall p | p in owned'
      ensures Live(t, Find(t, p)) && Addr(t, Find(t, p)) == p
    {
      var c := if p == Addr(t, b) then b else Find(s, p);
      Recovers(t, lo, hi, c);
    }
  }

  lemma OwnsLost(s: Slab, t: Slab, b: Block, owned: map<int, nat>, lo: int, hi: int)
    requires Sound(s, lo, hi) && Owns(s, owned) && Sound(t, lo, hi) && Loses(s, t, b)
    ensures Owns(t, owned - {Addr(s, b)})
  {
    hide Sound, Live, Addr, Bytes, Find;
    var owned' := owned - {Addr(s, b)};
    forall c | Live(t, c)
      ensures Addr(t, c) in owned' && owned'[Addr(t, c)] <= Bytes(t, c)
    {
      LiveApart(s, lo, hi, b, c);
    }
    forall p | p in owned'
      ensures Live(t, Find(t, p)) && Addr(t, Find(t, p)) == p
    {
      Recovers(t, lo, hi, Find(s, p));
    }
  }

  lemma FreeSound(s: Slab, lo: int, hi: int, b: Block)
    requires Sound(s, lo, hi) && Live(s, b)
    ensures b.Piece? ==> b.zone in s.zones && s.zones[b.zone].index < |s.lists|
    ensures Sound(FreeBlock(s, b), lo, hi) && Loses(s, FreeBlock(s, b), b)
  {
    hide Sound, Loses, FreePiece, FreeLarge;
    match b {
      case Piece(a, i) => FreePieceSound(s, lo, hi, a, i);
      case Whole(p, n) => FreeLargeSound(s, lo, hi, p, n);
    }
  }

  ghost function Malloced(s: Slab, n: nat, lo: int, hi: int): Result
    requires Sound(s, lo, hi)
  {
    Heads(s, lo, hi);
    Malloc(s, n)
  }

  ghost function Freed(s: Slab, b: Block, lo: int, hi: int): Slab
    requires Sound(s, lo, hi) && Live(s, b)
  {
    FreeSound(s, lo, hi, b);
    FreeBlock(s, b)
  }

  // ---- realloc ----

  /** The size that zoneindex makes of a request; it leaves 16384 bytes and more as they are. */
  ghost function Wanted(n: nat): (r: nat)
    requires n > 0
    ensures r >= n
  {
    if n < 16384 then ChunkOf(IndexOfSize(n)) else n
  }

  /** The chunk is already of that size. */
  ghost predicate Stays(s: Slab, b: Block, n: nat)
    requires n > 0
  {
    b.Piece? && b.zone in s.zones && s.zones[b.zone].Chunk() == Wanted(n)
  }

  /** What is asked of rt_malloc otherwise. */
  ghost function Asked(b: Block, n: nat): (r: nat)
    requires n > 0
    ensures r >= n
  {
    if b.Piece? then Wanted(n) else n
  }

  /** rt_realloc of a live block to a size that is not zero. */
  ghost function Realloced(s: Slab, b: Block, n: nat, lo: int, hi: int): Result
    requires Sound(s, lo, hi) && Live(s, b) && n > 0
  {
    if Stays(s, b, n) then Result(s, Given(b))
    else
      var r := Malloced(s, Asked(b, n), lo, hi);
      if r.outcome.Failed? then r
      else
        StillLive(s, lo, hi, b, Asked(b, n));
        Result(Freed(r.state, b, lo, hi), r.outcome)
  }

  lemma StillLive(s: Slab, lo: int, hi: int, b: Block, n: nat)
    requires Sound(s, lo, hi) && Live(s, b) && Malloced(s, n, lo, hi).outcome.Given?
    ensures var r := Malloced(s, n, lo, hi);
            Sound(r.state, lo, hi) && Gains(s, r.state, r.outcome.block) && Bytes(r.state, r.outcome.block) >= n && Live(r.state, b)
  {
    hide Sound, Malloc, Live, Addr, Bytes;
    Heads(s, lo, hi);
    MallocSound(s, lo, hi, n);
  }

  /** Block b is replaced by c, everything else is where it was. */
  ghost predicate Replaces(s: Slab, t: Slab, b: Block, c: Block) {
    && (c != b ==> !Live(s, c))
    && Live(t, c) && (c == b ==> t == s)
    && forall x :: x != c ==> (Live(t, x) <==> x != b && Live(s, x)) && (Live(t, x) ==> Addr(t, x) == Addr(s, x) && Bytes(t, x) == Bytes(s, x))
  }

  /** rt_realloc keeps the block exactly if its chunk is already of the size; otherwise it moves it, or fails, changing
      nothing, exactly if there is no room. */
  lemma ReallocSound(s: Slab, lo: int, hi: int, b: Block, n: nat)
    requires Sound(s, lo, hi) && Live(s, b) && n > 0
    ensures var r := Realloced(s, b, n, lo, hi); r.outcome.Failed? <==> !Stays(s, b, n) && NoRoom(s, Asked(b, n))
    ensures var r := Realloced(s, b, n, lo, hi); r.outcome.Failed? ==> r.state == s
    ensures var r := Realloced(s, b, n, lo, hi); r.outcome.Given? ==>
              Sound(r.state, lo, hi) && Replaces(s, r.state, b, r.outcome.block) && Bytes(r.state, r.outcome.block) >= n
    ensures var r := Realloced(s, b, n, lo, hi); r.outcome == Given(b) <==> Stays(s, b, n)
  {
    hide Sound, Malloc, Live, Addr, FreeBlock, NoRoom;
    if Stays(s, b, n) {
      LivePiece(s, b);
    } else {
      Heads(s, lo, hi);
      MallocSound(s, lo, hi, Asked(b, n));
      var r := Malloced(s, Asked(b, n), lo, hi);
      if r.outcome.Given? {
        StillLive(s, lo, hi, b, Asked(b, n));
        FreeSound(r.state, lo, hi, b);
        MovedReplaces(s, r.state, FreeBlock(r.state, b), b, r.outcome.block);
      }
    }
  }

  lemma LivePiece(s: Slab, b: Block)
    requires b.Piece? && b.zone in s.zones
    ensures Bytes(s, b) == s.zones[b.zone].Chunk()
  {}

  lemma MovedReplaces(s: Slab, m: Slab, t: Slab, b: Block, c: Block)
    requires Live(s, b) && Gains(s, m, c) && Loses(m, t, b)
    ensures Replaces(s, t, b, c) && Bytes(t, c) == Bytes(m, c) && Addr(t, c) == Addr(m, c) && c != b
  {
    hide Live, Addr, Bytes;
  }

  lemma OwnsReplaced(s: Slab, t: Slab, b: Block, c: Block, owned: map<int, nat>, n: nat, lo: int, hi: int)
    requires Sound(s, lo, hi) && Owns(s, owned) && Sound(t, lo, hi) && Live(s, b) && Replaces(s, t, b, c) && n <= Bytes(t, c)
    ensures Owns(t, (owned - {Addr(s, b)})[Addr(t, c) := n])
  {
    hide Sound, Live, Addr, Bytes, Find;
    var owned' := (owned - {Addr(s, b)})[Addr(t, c) := n];
    forall x | Live(t, x)
      ensures Addr(t, x) in owned' && owned'[Addr(t, x)] <= Bytes(t, x)
    {
      if x != c {
        LiveApart(t, lo, hi, c, x);
        LiveApart(s, lo, hi, b, x);
      }
    }
    forall p | p in owned'
      ensures Live(t, Find(t, p)) && Addr(t, Find(t, p)) == p
    {
      var x := if p == Addr(t, c) then c else Find(s, p);
      Recovers(t, lo, hi, x);
    }
  }

  /** One call of rt_malloc, rt_free or rt_realloc; callers free and resize what they own. */
  ghost function Step(s: System, c: Request, lo: int, hi: int): System
    requires Consistent(s, lo, hi)
  {
    match c
    case Get(n) =>
      var r := Malloced(s.slab, n, lo, hi);
      if r.outcome.Failed? then s else System(r.state, s.owned[Addr(r.state, r.outcome.block) := n])
    case Put(p) => if p !in s.owned then s else System(Freed(s.slab, Find(s.slab, p), lo, hi), s.owned - {p})
    case Resize(p, n) =>
      if p !in s.owned then s
      else if n == 0 then System(Freed(s.slab, Find(s.slab, p), lo, hi), s.owned - {p})
      else
        var r := Realloced(s.slab, Find(s.slab, p), n, lo, hi);
        if r.outcome.Failed? then s else System(r.state, (s.owned - {p})[Addr(r.state, r.outcome.block) := n])
  }

  lemma StepSound(s: System, c: Request, lo: int, hi: int)
    requires Consistent(s, lo, hi)
    ensures Consistent(Step(s, c, lo, hi), lo, hi)
  {
    hide Sound, Owns, Malloc, FreeBlock, Gains, Loses, Replaces, Realloced, Find, Live;
    match c {
      case Get(n) =>
        Heads(s.slab, lo, hi);
        MallocSound(s.slab, lo, hi, n);
        var r := Malloc(s.slab, n);
        if r.outcome.Given? { OwnsGained(s.slab, r.state, r.outcome.block, s.owned, n, lo, hi); }
      case Put(p) => if p in s.owned { PutSound(s, p, lo, hi); }
      case Resize(p, n) =>
        if p in s.owned {
          PutSound(s, p, lo, hi);
          if n > 0 {
            ReallocSound(s.slab, lo, hi, Find(s.slab, p), n);
            var r := Realloced(s.slab, Find(s.slab, p), n, lo, hi);
            if r.outcome.Given? { OwnsReplaced(s.slab, r.state, Find(s.slab, p), r.outcome.block, s.owned, n, lo, hi); }
          }
        }
    }
  }

  lemma PutSound(s: System, p: int, lo: int, hi: int)
    requires Consistent(s, lo, hi) && p in s.owned
    ensures Live(s.slab, Find(s.slab, p)) && Addr(s.slab, Find(s.slab, p)) == p
    ensures Consistent(System(Freed(s.slab, Find(s.slab, p), lo, hi), s.owned - {p}), lo, hi)
  {
    hide Sound, Owns, Malloc, FreeBlock, Gains, Loses;
    OwnedLive(s, p);
    FreeSound(s.slab, lo, hi, Find(s.slab, p));
    OwnsLost(s.slab, FreeBlock(s.slab, Find(s.slab, p)), Find(s.slab, p), s.owned, lo, hi);
  }

  lemma OwnedLive(s: System, p: int)
    requires Owns(s.slab, s.owned) && p in s.owned
    ensures Live(s.slab, Find(s.slab, p)) && Addr(s.slab, Find(s.slab, p)) == p
  {}

  ghost function Run(s: System, cs: seq<Request>, lo: int, hi: int): System
    requires Consistent(s, lo, hi)
    decreases |cs|
  {
    if cs == [] then s
    else
      StepSound(s, cs[0], lo, hi);
      Run(Step(s, cs[0], lo, hi), cs[1..], lo, hi)
  }

  lemma {:induction false} RunSound(s: System, cs: seq<Request>, lo: int, hi: int)
    requires Consistent(s, lo, hi)
    ensures Consistent(Run(s, cs, lo, hi), lo, hi)
    decreases |cs|
  {
    if cs != [] {
      StepSound(s, cs[0], lo, hi);
      RunSound(Step(s, cs[0], lo, hi), cs[1..], lo, hi);
    }
  }

  /** The heap when it is new; pages lo .. hi are left behind memusage. */
  function Empty(size: nat, lo: int, hi: int): Slab {
    Slab(size, if lo < hi then [PageRuns.Run(lo, hi - lo)] else [], map[], map[], seq(ZONES, _ => []), [], map[])
  }

  lemma EmptySound(size: nat, lo: int, hi: int)
    requires ZoneSize(size) && 0 < lo <= hi
    ensures Consistent(System(Empty(size, lo, hi), map[]), lo, hi)
  {
    if lo < hi { InitGood(lo, hi); }
    assert ArrayOk(Empty(size, lo, hi).zones, Empty(size, lo, hi).lists);
  }

  /** All that happens from the start on. */
  ghost function FromStart(size: nat, cs: seq<Request>, lo: int, hi: int): (s: System)
    requires ZoneSize(size) && 0 < lo <= hi
  {
    EmptySound(size, lo, hi);
    Run(System(Empty(size, lo, hi), map[]), cs, lo, hi)
  }

  /** Whatever was allocated and freed before: the ranges that callers hold lie in the heap and never overlap. */
  lemma OwnedApart(size: nat, cs: seq<Request>, lo: int, hi: int, p: int, q: int)
    requires ZoneSize(size) && 0 < lo <= hi
    ensures var owned := FromStart(size, cs, lo, hi).owned; p in owned ==> lo * PAGE <= p && p + owned[p] <= hi * PAGE
    ensures var owned := FromStart(size, cs, lo, hi).owned;
            p in owned && q in owned && p != q ==> p + owned[p] <= q || q + owned[q] <= p
  {
    hide Sound, Live, Addr, Bytes, Find, Empty;
    EmptySound(size, lo, hi);
    RunSound(System(Empty(size, lo, hi), map[]), cs, lo, hi);
    var t := FromStart(size, cs, lo, hi);
    if p in t.owned {
      OwnedLive(t, p);
      InHome(t.slab, lo, hi, Find(t.slab, p));
      SoundIsLoose(t.slab, lo, hi);
      PagesApart(t.slab, lo, hi, Home(Find(t.slab, p)));
      if q in t.owned && p != q { LiveApart(t.slab, lo, hi, Find(t.slab, p), Find(t.slab, q)); }
    }
  }

  // ---- a run after which a large power-of-two chunk is not aligned ----

  lemma Index63()
    ensures ChunkOf(62) < 8000 <= ChunkOf(63) == 8192 && IndexOfSize(8000) == 63
  {
    SlabSizes.IndexUnique(8000, 63);
  }

  /** The chunk begins behind the header, rounded up to the chunk size. */
  lemma Offset8192()
    ensures Offset(8192) == 8192
  {}

  lemma FirstZone(lo: int, hi: int)
    requires 0 < lo && lo + 8 <= hi
    ensures var s := Empty(0x8000, lo, hi); |s.lists| == ZONES && ZonePages(s.size) == 8 && Alloc(s.free, 8).result == Taken(lo)
    ensures NewZone(Empty(0x8000, lo, hi), 63).outcome == Given(Piece(lo, 0))
    ensures var t := NewZone(Empty(0x8000, lo, hi), 63).state; Addr(t, Piece(lo, 0)) == lo * PAGE + 8192 && Bytes(t, Piece(lo, 0)) == 8192
  {
    hide Marked, Offset, Capacity;
    Offset8192();
  }

  lemma FirstMalloc(lo: int, hi: int)
    requires 0 < lo && lo + 8 <= hi && Sound(Empty(0x8000, lo, hi), lo, hi)
    ensures Malloced(Empty(0x8000, lo, hi), 8000, lo, hi) == NewZone(Empty(0x8000, lo, hi), 63)
  {
    hide NewZone, TakeLarge, TakePiece, OpenZone, ChunkOf, Sound;
    Heads(Empty(0x8000, lo, hi), lo, hi);
    Index63();
  }

  /** A new heap whose first page has an odd number: 8000 bytes are given an 8192-byte chunk that is not aligned to
      its size. */
  lemma OddZoneMisaligned(lo: int, hi: int)
    requires 0 < lo && lo % 2 == 1 && lo + 8 <= hi
    ensures var t, p := FromStart(0x8000, [Get(8000)], lo, hi), lo * PAGE + 8192;
            t.owned == map[p := 8000] && Bytes(t.slab, Find(t.slab, p)) == 8192 && p % 8192 != 0
  {
    hide Sound, Owns, NewZone, Malloc, Find, Addr, Bytes, Empty;
    var s := System(Empty(0x8000, lo, hi), map[]);
    EmptySound(0x8000, lo, hi);
    StepSound(s, Get(8000), lo, hi);
    FirstZone(lo, hi);
    FirstMalloc(lo, hi);
    var t := Step(s, Get(8000), lo, hi);
    assert [Get(8000)][1..] == [];
    assert FromStart(0x8000, [Get(8000)], lo, hi) == t;
    FirstLive(lo, hi);
    Recovers(t.slab, lo, hi, Piece(lo, 0));
    OddPage(lo);
  }

  lemma FirstLive(lo: int, hi: int)
    requires 0 < lo && lo + 8 <= hi
    ensures Live(NewZone(Empty(0x8000, lo, hi), 63).state, Piece(lo, 0))
  {
    hide Marked, Offset, Capacity;
    FirstZone(lo, hi);
  }

  lemma OddPage(lo: int)
    requires 0 < lo && lo % 2 == 1
    ensures (lo * PAGE + 8192) % 8192 != 0
  {
    assert lo * PAGE == lo / 2 * 8192 + 4096;
  }
}
