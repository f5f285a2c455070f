/** The zones of slab.c on plain values: which chunks of which zones are in use, and how a pointer leads
    back to its zone. Pages are numbered; pool addresses count bytes. */
module SlabModel {
  import opened Rings
  import opened PageRuns
  import opened SlabSizes

  const KEPT := 2   // ZONE_RELEASE_THRESH

  /** Chunks 0 .. uindex have been handed out at least once; those of freed are on the free-chunk list. */
  datatype Zone = Zone(index: nat, nmax: int, uindex: int, freed: seq<int>) {
    function Chunk(): nat { ChunkOf(index) }

    /** z_nfree. */
    function Free(): int { nmax - 1 - uindex + |freed| }

    predicate Used(i: int) { 0 <= i <= uindex && i !in freed }
  }

  /** memusage of one page. */
  datatype Usage = None | Small(offset: int) | Large(pages: int)

  /** free: the page allocator; held: what was taken from it; zones: zones in use; lists: zone_array;
      idle: zone_free. */
  datatype Slab = Slab(size: nat, free: seq<Run>, held: map<int, int>, zones: map<int, Zone>,
                       lists: seq<seq<int>>, idle: seq<int>, usage: map<int, Usage>)

  datatype Block = Piece(zone: int, chunk: int) | Whole(page: int, pages: int)

  // ---- the invariant ----

  function ZonePages(size: nat): nat { size / PAGE }

  ghost predicate ZoneOk(size: nat, z: Zone) {
    && z.index < ZONES && z.Chunk() <= Limit(size) && z.nmax == Capacity(size, z.Chunk())
    && 0 <= z.uindex < z.nmax && Distinct(z.freed)
    && forall i :: i in z.freed ==> 0 <= i <= z.uindex
  }

  /** zone_array[i] lists exactly the zones of index i with free chunks, once each. */
  ghost predicate ArrayOk(zones: map<int, Zone>, lists: seq<seq<int>>) {
    && |lists| == ZONES
    && (forall i :: 0 <= i < ZONES ==> Distinct(lists[i]))
    && forall i, a :: 0 <= i < ZONES ==> (a in lists[i] <==> a in zones && zones[a].index == i && zones[a].Free() > 0)
  }

  /** Every page of the zone says how far it is from the start of the zone. */
  ghost predicate MarkedZone(usage: map<int, Usage>, a: int, n: nat) {
    forall p :: a <= p < a + n ==> p in usage && usage[p] == Small(p - a)
  }

  ghost predicate IsZone(s: Slab, a: int) { a in s.zones || a in s.idle }

  /** What is held from the page allocator is a zone or one large allocation, and memusage says which. */
  ghost predicate HeldOk(s: Slab) {
    && (forall a :: IsZone(s, a) ==> a in s.held && s.held[a] == ZonePages(s.size) && MarkedZone(s.usage, a, ZonePages(s.size)))
    && (forall a :: a in s.held && !IsZone(s, a) ==> a in s.usage && s.usage[a] == Large(s.held[a]))
  }

  ghost predicate IdleOk(s: Slab) {
    Distinct(s.idle) && forall a :: a in s.idle ==> a !in s.zones
  }

  ghost predicate Sound(s: Slab, lo: int, hi: int) {
    Loose(s, lo, hi) && |s.idle| <= KEPT
  }

  /** The invariant without the bound on the zones that are kept. */
  ghost predicate Loose(s: Slab, lo: int, hi: int) {
    && ZoneSize(s.size) && 0 < lo && PageRuns.Good(Pages(s.free, s.held), lo, hi)
    && ArrayOk(s.zones, s.lists) && IdleOk(s) && HeldOk(s)
    && forall a :: a in s.zones ==> ZoneOk(s.size, s.zones[a])
  }

  // ---- live blocks ----

  ghost predicate Live(s: Slab, b: Block) {
    match b
    case Piece(a, i) => a in s.zones && s.zones[a].Used(i)
    case Whole(p, n) => p in s.held && !IsZone(s, p) && s.held[p] == n
  }

  function Addr(s: Slab, b: Block): int {
    match b
    case Piece(a, i) => a * PAGE + (if a in s.zones then OffsetOf(s.zones[a]) + i * s.zones[a].Chunk() else 0)
    case Whole(p, _) => p * PAGE
  }

  function OffsetOf(z: Zone): nat { if z.Chunk() > 0 then Offset(z.Chunk()) else 0 }

  function Bytes(s: Slab, b: Block): int {
    match b
    case Piece(a, _) => if a in s.zones then s.zones[a].Chunk() else 0
    case Whole(_, n) => n * PAGE
  }

  // ---- taking ----

  datatype Outcome = Failed | Given(block: Block)

  datatype Result = Result(state: Slab, outcome: Outcome)

  /** A chunk of the first zone of the list: one that was never used, else the first of the free-chunk list. */
  function TakeChunk(z: Zone): (Zone, int) {
    if z.uindex + 1 != z.nmax then (z.(uindex := z.uindex + 1), z.uindex + 1)
    else if z.freed == [] then (z, 0)
    else (z.(freed := z.freed[1..]), z.freed[0])
  }

  function TakePiece(s: Slab, zi: nat): Result
    requires zi < |s.lists| && s.lists[zi] != [] && s.lists[zi][0] in s.zones
  {
    var a := s.lists[zi][0];
    var (z, i) := TakeChunk(s.zones[a]);
    var lists := if s.zones[a].Free() == 1 then s.lists[zi := s.lists[zi][1..]] else s.lists;
    Result(s.(zones := s.zones[a := z], lists := lists), Given(Piece(a, i)))
  }

  /** Zone a starts anew with chunks of index zi, and its first chunk is given away. */
  function OpenZone(s: Slab, a: int, zi: nat): Result
    requires zi < |s.lists| && ChunkOf(zi) > 0
  {
    var z := Zone(zi, Capacity(s.size, ChunkOf(zi)), 0, []);
    Result(s.(zones := s.zones[a := z], lists := s.lists[zi := [a] + s.lists[zi]]), Given(Piece(a, 0)))
  }

  /** The loop over the pages of a new zone. */
  function Marked(usage: map<int, Usage>, a: int, n: nat): (r: map<int, Usage>)
    ensures forall p :: a <= p < a + n ==> p in r && r[p] == Small(p - a)
    ensures forall p :: !(a <= p < a + n) ==> (p in r <==> p in usage) && (p in usage ==> r[p] == usage[p])
  {
    if n == 0 then usage else Marked(usage, a, n - 1)[a + n - 1 := Small(n - 1)]
  }

  function Cleared(usage: map<int, Usage>, a: int, n: nat): (r: map<int, Usage>)
    ensures forall p :: a <= p < a + n ==> p in r && r[p] == None
    ensures forall p :: !(a <= p < a + n) ==> (p in r <==> p in usage) && (p in usage ==> r[p] == usage[p])
  {
    if n == 0 then usage else Cleared(usage, a, n - 1)[a + n - 1 := None]
  }

  function NewZone(s: Slab, zi: nat): Result
    requires zi < |s.lists| && ChunkOf(zi) > 0
  {
    var n := ZonePages(s.size);
    var r := Alloc(s.free, n);
    if r.result.Nothing? then Result(s, Failed)
    else
      var a := r.result.addr;
      OpenZone(s.(free := r.rest, held := s.held[a := n], usage := Marked(s.usage, a, n)), a, zi)
  }

  function PagesOf(n: nat): nat { RoundUp(n, PAGE) / PAGE }

  function TakeLarge(s: Slab, n: nat): Result {
    var r := Alloc(s.free, PagesOf(n));
    if r.result.Nothing? then Result(s, Failed)
    else
      var a := r.result.addr;
      Result(s.(free := r.rest, held := s.held[a := PagesOf(n)], usage := s.usage[a := Large(PagesOf(n))]), Given(Whole(a, PagesOf(n))))
  }

  /** rt_malloc. */
  ghost function Malloc(s: Slab, n: nat): Result
    requires ZoneSize(s.size) && |s.lists| == ZONES && forall i :: 0 <= i < ZONES ==> (s.lists[i] != [] ==> s.lists[i][0] in s.zones)
  {
    if n == 0 then Result(s, Failed)
    else if n >= Limit(s.size) then TakeLarge(s, n)
    else
      var zi := IndexOfSize(n);
      if s.lists[zi] != [] then TakePiece(s, zi)
      else if s.idle != [] then OpenZone(s.(idle := s.idle[1..]), s.idle[0], zi)
      else NewZone(s, zi)
  }

  // ---- giving back ----

  /** Puts the chunk on the free-chunk list, and the zone on its list when it had no free chunk. */
  function ReturnChunk(s: Slab, a: int, i: int): Slab
    requires a in s.zones && s.zones[a].index < |s.lists|
  {
    var z := s.zones[a];
    var lists := if z.Free() == 0 then s.lists[z.index := [a] + s.lists[z.index]] else s.lists;
    s.(zones := s.zones[a := z.(freed := [i] + z.freed)], lists := lists)
  }

  /** A zone without used chunks, while its list has another zone, is kept for later. */
  predicate Retires(s: Slab, a: int)
    requires a in s.zones && s.zones[a].index < |s.lists|
  {
    s.zones[a].Free() == s.zones[a].nmax && s.lists[s.zones[a].index] != [a]
  }

  function Retire(s: Slab, a: int): Slab
    requires a in s.zones && s.zones[a].index < |s.lists|
  {
    var zi := s.zones[a].index;
    s.(zones := s.zones - {a}, lists := s.lists[zi := Unlisted(s.lists[zi], a)], idle := [a] + s.idle)
  }

  /** The zone that was kept last goes back to the page allocator when there are too many. */
  function Trim(s: Slab): Slab {
    if |s.idle| <= KEPT then s
    else
      var a, n := s.idle[0], ZonePages(s.size);
      s.(idle := s.idle[1..], usage := Cleared(s.usage, a, n), free := Release(s.free, a, n), held := s.held - {a})
  }

  function FreePiece(s: Slab, a: int, i: int): Slab
    requires a in s.zones && s.zones[a].index < |s.lists|
  {
    var r := ReturnChunk(s, a, i);
    if Retires(r, a) then Trim(Retire(r, a)) else r
  }

  function FreeLarge(s: Slab, p: int, n: int): Slab {
    s.(usage := s.usage[p := Large(0)], free := Release(s.free, p, n), held := s.held - {p})
  }

  /** What rt_free finds for a pointer: the page's memusage gives the zone, and the zone the chunk. */
  function Find(s: Slab, ptr: int): Block {
    var p := ptr / PAGE;
    if p in s.usage && s.usage[p].Small? then
      var a := p - s.usage[p].offset;
      if a in s.zones && s.zones[a].Chunk() > 0 then Piece(a, (ptr - a * PAGE - OffsetOf(s.zones[a])) / s.zones[a].Chunk())
      else Piece(a, 0)
    else if p in s.usage && s.usage[p].Large? then Whole(p, s.usage[p].pages)
    else Whole(p, 0)
  }

  function FreeBlock(s: Slab, b: Block): Slab
    requires b.Piece? ==> b.zone in s.zones && s.zones[b.zone].index < |s.lists|
  {
    match b
    case Piece(a, i) => FreePiece(s, a, i)
    case Whole(p, n) => FreeLarge(s, p, n)
  }
}
