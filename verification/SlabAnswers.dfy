/** Where rt_malloc of slab.c takes a block from, and what rt_free makes of its zone. */
module SlabAnswers {
  import opened Rings
  import opened PageRuns
  import opened SlabSizes
  import opened SlabModel
  import opened SlabRuns

  /** a is the lowest place with n free pages in a row. */
  ghost predicate LowestStretch(s: Slab, a: int, n: nat) {
    Stretch(s.free, a, n) && forall b :: Stretch(s.free, b, n) ==> a <= b
  }

  lemma AllocIsLowest(s: Slab, n: nat)
    requires Normal(s.free) && n > 0 && Alloc(s.free, n).result.Taken?
    ensures LowestStretch(s, Alloc(s.free, n).result.addr, n)
  {
    AllocSound(s.free, n);
    forall b | Stretch(s.free, b, n)
      ensures Alloc(s.free, n).result.addr <= b
    {
      AllocLowest(s.free, n, b);
    }
  }

  /** A chunk of the least size that holds the request: of a zone that has a free one, else of the zone kept last, else of
      the lowest pages that make a new zone. */
  ghost predicate SmallGiven(s: Slab, t: Slab, b: Block, n: nat)
    requires |s.lists| == ZONES && 0 < n < 16384
  {
    var zi := IndexOfSize(n);
    && b.Piece? && Bytes(t, b) == ChunkOf(zi)
    && if s.lists[zi] != [] then b.zone == s.lists[zi][0] && (t.free, t.held, t.idle) == (s.free, s.held, s.idle)
       else if s.idle != [] then s.idle == [b.zone] + t.idle && (t.free, t.held) == (s.free, s.held)
       else LowestStretch(s, b.zone, ZonePages(s.size)) && t.held == s.held[b.zone := ZonePages(s.size)] && t.idle == s.idle
  }

  /** The lowest pages, not one more than it takes. */
  ghost predicate LargeGiven(s: Slab, t: Slab, b: Block, n: nat) {
    && b.Whole? && n <= b.pages * PAGE < n + PAGE
    && LowestStretch(s, b.page, b.pages) && t.held == s.held[b.page := b.pages]
    && (t.zones, t.lists, t.idle) == (s.zones, s.lists, s.idle)
  }

  lemma PagesTight(n: nat)
    requires n > 0
    ensures PagesOf(n) > 0 && n <= PagesOf(n) * PAGE < n + PAGE
  {
    RoundUpIs(n, PAGE);
  }

  lemma NewZoneGiven(s: Slab, lo: int, hi: int, n: nat)
    requires Sound(s, lo, hi) && |s.lists| == ZONES && 0 < n < 16384 && ChunkOf(IndexOfSize(n)) <= Limit(s.size)
    requires s.lists[IndexOfSize(n)] == [] && s.idle == [] && NewZone(s, IndexOfSize(n)).outcome.Given?
    ensures SmallGiven(s, NewZone(s, IndexOfSize(n)).state, NewZone(s, IndexOfSize(n)).outcome.block, n)
  {
    hide PageRuns.Good, Alloc, LowestStretch, Sound, Capacity, IndexOfSize, ZonePages, ChunkOf, Marked;
    NormalFree(s, lo, hi);
    NewZoneSound(s, lo, hi, IndexOfSize(n));
    AllocIsLowest(s, ZonePages(s.size));
  }

  /** Where rt_malloc takes a block from. */
  lemma MallocAnswer(s: Slab, lo: int, hi: int, n: nat)
    requires Sound(s, lo, hi) && Malloced(s, n, lo, hi).outcome.Given?
    ensures |s.lists| == ZONES
    ensures var r := Malloced(s, n, lo, hi);
            if 0 < n < Limit(s.size) && n < 16384 then SmallGiven(s, r.state, r.outcome.block, n) else LargeGiven(s, r.state, r.outcome.block, n)
  {
    hide PageRuns.Good, Sound, NewZone, TakePiece, OpenZone, LowestStretch, SmallGiven, IndexOfSize, ChunkOf, Capacity, ZonePages;
    Heads(s, lo, hi);
    if 0 < n < Limit(s.size) {
      ChunkBelow(s.size, n);
      var zi := IndexOfSize(n);
      if s.lists[zi] != [] {
        PieceGiven(s, lo, hi, n);
      } else if s.idle != [] {
        IdleGiven(s, lo, hi, n);
      } else {
        NewZoneGiven(s, lo, hi, n);
      }
    } else {
      NormalFree(s, lo, hi);
      PagesTight(n);
      AllocIsLowest(s, PagesOf(n));
    }
  }

  lemma PieceGiven(s: Slab, lo: int, hi: int, n: nat)
    requires Sound(s, lo, hi) && |s.lists| == ZONES && 0 < n < 16384
    requires s.lists[IndexOfSize(n)] != [] && s.lists[IndexOfSize(n)][0] in s.zones
    ensures var r := TakePiece(s, IndexOfSize(n)); r.outcome.Given? && SmallGiven(s, r.state, r.outcome.block, n)
  {
    hide PageRuns.Good, Sound, IndexOfSize, ChunkOf, TakeChunk;
    TakePieceSound(s, lo, hi, IndexOfSize(n));
  }

  lemma IdleGiven(s: Slab, lo: int, hi: int, n: nat)
    requires Sound(s, lo, hi) && |s.lists| == ZONES && 0 < n < 16384 && 0 < ChunkOf(IndexOfSize(n)) <= Limit(s.size)
    requires s.lists[IndexOfSize(n)] == [] && s.idle != []
    ensures var r := OpenZone(s.(idle := s.idle[1..]), s.idle[0], IndexOfSize(n)); r.outcome.Given? && SmallGiven(s, r.state, r.outcome.block, n)
  {
    hide PageRuns.Good, Sound, IndexOfSize, ChunkOf, Capacity;
    IdleZoneSound(s, lo, hi, IndexOfSize(n));
  }

  // ---- free ----

  /** No chunk but i is in use. */
  ghost predicate LastInUse(z: Zone, i: int) { forall j :: z.Used(j) ==> j == i }

  /** Another zone of this chunk size has a free chunk. */
  ghost predicate OtherZone(s: Slab, a: int)
    requires a in s.zones
  {
    exists b :: b != a && b in s.zones && s.zones[b].index == s.zones[a].index && s.zones[b].Free() > 0
  }

  lemma UnusedFree(size: nat, z: Zone)
    requires ZoneSize(size) && ZoneOk(size, z)
    ensures z.Free() == z.nmax <==> forall j :: !z.Used(j)
  {
    FreeCounts(size, z);
    if forall j :: !z.Used(j) { assert Unused(z) == Range(z.nmax); }
  }

  lemma RetiresExactly(s: Slab, lo: int, hi: int, a: int, i: int)
    requires Sound(s, lo, hi) && Live(s, Piece(a, i))
    ensures a in s.zones && s.zones[a].index < |s.lists| && ReturnChunk(s, a, i).zones[a].index < |ReturnChunk(s, a, i).lists|
    ensures Retires(ReturnChunk(s, a, i), a) <==> LastInUse(s.zones[a], i) && OtherZone(s, a)
  {
    hide PageRuns.Good, HeldOk, IdleOk, Zone.Used, Zone.Free, ZoneOk;
    ReturnSound(s, lo, hi, a, i);
    var r, z := ReturnChunk(s, a, i), s.zones[a];
    ReturnOk(s.size, z, i);
    UnusedFree(s.size, r.zones[a]);
    OnlyZone(s.zones, r.zones, r.lists, a);
  }

  /** The list of a zone with free chunks has no other one exactly if there is none. */
  lemma OnlyZone(zones: map<int, Zone>, zones': map<int, Zone>, lists: seq<seq<int>>, a: int)
    requires ArrayOk(zones', lists) && a in zones && a in zones' && zones' == zones[a := zones'[a]]
    requires zones'[a].index == zones[a].index < ZONES && zones'[a].Free() > 0
    ensures lists[zones[a].index] == [a] <==> !exists b :: b != a && b in zones && zones[b].index == zones[a].index && zones[b].Free() > 0
  {
    hide Zone.Free;
    var l := lists[zones[a].index];
    assert a in l;
    if l == [a] {
      forall b | b != a && b in zones && zones[b].index == zones[a].index
        ensures zones[b].Free() <= 0
      {
        assert zones'[b] == zones[b] && b !in l;
      }
    } else {
      assert |l| > 1 && l[0] != l[1];
      var b := if l[0] == a then l[1] else l[0];
      assert b in l && b != a;
      assert zones'[b].index == zones[a].index && zones'[b].Free() > 0;
      assert zones'[b] == zones[b];
    }
  }

  /** A zone is given up exactly if its last chunk was freed and another zone of its size can serve requests; then it is
      kept for later, and its pages become free exactly if two zones are kept already. */
  ghost predicate ZoneFreed(s: Slab, t: Slab, a: int, i: int)
    requires a in s.zones
  {
    if LastInUse(s.zones[a], i) && OtherZone(s, a) then
      && t.zones == s.zones - {a}
      && if |s.idle| < KEPT then t.idle == [a] + s.idle && (t.held, t.free) == (s.held, s.free)
         else t.idle == s.idle && t.held == s.held - {a}
    else
      && t.zones.Keys == s.zones.Keys && (t.idle, t.held, t.free) == (s.idle, s.held, s.free)
  }

  lemma FreePieceAnswer(s: Slab, lo: int, hi: int, a: int, i: int)
    requires Sound(s, lo, hi) && Live(s, Piece(a, i))
    ensures a in s.zones && s.zones[a].index < |s.lists| && ZoneFreed(s, FreePiece(s, a, i), a, i)
  {
    hide Sound, Live, LastInUse, OtherZone, Retires, Zone.Free, Release, Cleared, Unlisted;
    RetiresExactly(s, lo, hi, a, i);
    SoundIsLoose(s, lo, hi);
    var r := ReturnChunk(s, a, i);
    assert r.zones - {a} == s.zones - {a};
    assert ([a] + s.idle)[1..] == s.idle;
  }

  /** rt_free of a chunk, or of whole pages, which become free. */
  lemma FreeAnswer(s: Slab, lo: int, hi: int, b: Block)
    requires Sound(s, lo, hi) && Live(s, b)
    ensures b.Piece? ==> b.zone in s.zones
    ensures var t := Freed(s, b, lo, hi); match b
      case Piece(a, i) => ZoneFreed(s, t, a, i)
      case Whole(p, n) => t.held == s.held - {p} && (t.zones, t.lists, t.idle) == (s.zones, s.lists, s.idle)
    ensures forall p :: lo <= p < hi ==> (Free(Freed(s, b, lo, hi).free, p) <==> !Used(Freed(s, b, lo, hi).held, p))
  {
    hide Live, ZoneFreed, FreePiece, Release, Free, Used, ArrayOk, HeldOk, IdleOk, ZoneOk;
    FreeSound(s, lo, hi, b);
    if b.Piece? { FreePieceAnswer(s, lo, hi, b.zone, b.chunk); }
  }
}
