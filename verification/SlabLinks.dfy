/** The linked lists of slab.c: zones under zone_array and zone_free, and the free chunks of each zone. */
module SlabLinks {
  import opened Rings
  import opened Chains
  import opened SlabSizes
  import opened SlabModel

  // ---- zones ----

  /** z_next, zone_array and zone_free spell out the lists. */
  ghost predicate Linked(next: map<int, int>, heads: seq<int>, spare: int, lists: seq<seq<int>>, idle: seq<int>) {
    && |heads| == |lists|
    && (forall i :: 0 <= i < |lists| ==> Chain(next, heads[i], lists[i]))
    && Chain(next, spare, idle)
  }

  /** Zone a is on no list but possibly list zi. */
  ghost predicate Elsewhere(lists: seq<seq<int>>, idle: seq<int>, zi: int, a: int) {
    a !in idle && forall i :: 0 <= i < |lists| && i != zi ==> a !in lists[i]
  }

  /** A zone that leaves the front of its list. */
  lemma PopLinked(next: map<int, int>, heads: seq<int>, spare: int, lists: seq<seq<int>>, idle: seq<int>, zi: nat)
    requires Linked(next, heads, spare, lists, idle) && zi < |lists| && lists[zi] != []
    requires Distinct(lists[zi]) && Elsewhere(lists, idle, zi, lists[zi][0])
    ensures heads[zi] == lists[zi][0] && heads[zi] in next
    ensures var a := heads[zi]; Linked(next[a := NULL], heads[zi := next[a]], spare, lists[zi := lists[zi][1..]], idle)
  {
    hide Chain;
    ChainHead(next, heads[zi], lists[zi]);
    TailDistinct(lists[zi]);
    var a := heads[zi];
    ChainFrame(next, spare, idle, a, NULL);
    var heads', lists' := heads[zi := next[a]], lists[zi := lists[zi][1..]];
    forall i | 0 <= i < |lists|
      ensures Chain(next[a := NULL], heads'[i], lists'[i])
    {
      if i == zi { ChainFrame(next, next[a], lists[zi][1..], a, NULL); } else { ChainFrame(next, heads[i], lists[i], a, NULL); }
    }
  }

  /** A zone that is put in front of its list. */
  lemma PushLinked(next: map<int, int>, heads: seq<int>, spare: int, lists: seq<seq<int>>, idle: seq<int>, zi: nat, a: int)
    requires Linked(next, heads, spare, lists, idle) && zi < |lists| && a != NULL
    requires a !in lists[zi] && Elsewhere(lists, idle, zi, a)
    ensures Linked(next[a := heads[zi]], heads[zi := a], spare, lists[zi := [a] + lists[zi]], idle)
  {
    hide Chain;
    var next' := next[a := heads[zi]];
    ChainFrame(next, spare, idle, a, heads[zi]);
    var heads', lists' := heads[zi := a], lists[zi := [a] + lists[zi]];
    forall i | 0 <= i < |lists|
      ensures Chain(next', heads'[i], lists'[i])
    {
      ChainFrame(next, heads[i], lists[i], a, heads[zi]);
      if i == zi { ChainCons(next', a, lists[zi]); }
    }
  }

  /** Taking the first of the spare zones. */
  lemma PopSpare(next: map<int, int>, heads: seq<int>, spare: int, lists: seq<seq<int>>, idle: seq<int>)
    requires Linked(next, heads, spare, lists, idle) && idle != []
    ensures spare == idle[0] && spare in next && Linked(next, heads, next[spare], lists, idle[1..])
  {
    ChainHead(next, spare, idle);
  }

  lemma PushSpare(next: map<int, int>, heads: seq<int>, spare: int, lists: seq<seq<int>>, idle: seq<int>, a: int)
    requires Linked(next, heads, spare, lists, idle) && a != NULL && a !in idle
    requires forall i :: 0 <= i < |lists| ==> a !in lists[i]
    ensures Linked(next[a := spare], heads, a, lists, [a] + idle)
  {
    hide Chain;
    ChainFrame(next, spare, idle, a, spare);
    forall i | 0 <= i < |lists|
      ensures Chain(next[a := spare], heads[i], lists[i])
    {
      ChainFrame(next, heads[i], lists[i], a, spare);
    }
    ChainCons(next[a := spare], a, idle);
  }

  /** The element at position k, as the cursor finds it. */
  lemma {:induction false} ChainAt(next: map<int, int>, head: int, s: seq<int>, k: nat)
    requires Chain(next, head, s) && k < |s|
    ensures s[k] in next && s[k] != NULL && Chain(next, next[s[k]], s[k + 1..])
    ensures k == 0 ==> head == s[0]
    ensures k > 0 ==> s[k - 1] in next && next[s[k - 1]] == s[k]
    decreases |s|
  {
    if k > 0 {
      ChainAt(next, next[head], s[1..], k - 1);
      assert s[1..][k - 1] == s[k];
      assert s[1..][k..] == s[k + 1..];
      if k > 1 { assert s[1..][k - 2] == s[k - 1]; }
    }
  }

  /** The link before position k is made to pass over it. */
  lemma {:induction false} ChainRemove(next: map<int, int>, head: int, s: seq<int>, k: nat)
    requires Chain(next, head, s) && Distinct(s) && 0 < k < |s|
    ensures s[k] in next && Chain(next[s[k - 1] := next[s[k]]], head, Without(s, k))
    decreases |s|
  {
    ChainAt(next, head, s, k);
    var next' := next[s[k - 1] := next[s[k]]];
    TailDistinct(s);
    assert Without(s, k) == [s[0]] + Without(s, k)[1..];
    if k == 1 {
      assert s[k + 1..] == s[1..][1..];
      TailDistinct(s[1..]);
      ChainFrame(next, next[s[k]], s[k + 1..], s[0], next[s[k]]);
      assert Without(s, k)[1..] == s[2..];
    } else {
      ChainRemove(next, next[head], s[1..], k - 1);
      assert s[1..][k - 1] == s[k] && s[1..][k - 2] == s[k - 1];
      assert Without(s, k)[1..] == Without(s[1..], k - 1);
    }
  }

  /** The zone at position k of its list is unlinked. */
  lemma UnlinkLinked(next: map<int, int>, heads: seq<int>, spare: int, lists: seq<seq<int>>, idle: seq<int>, zi: nat, k: nat)
    requires Linked(next, heads, spare, lists, idle) && zi < |lists| && k < |lists[zi]| && Distinct(lists[zi])
    requires forall x :: x in lists[zi] ==> Elsewhere(lists, idle, zi, x)
    ensures lists[zi][k] in next
    ensures k == 0 ==> Linked(next, heads[zi := next[lists[zi][k]]], spare, lists[zi := Without(lists[zi], k)], idle)
    ensures k > 0 ==> Linked(next[lists[zi][k - 1] := next[lists[zi][k]]], heads, spare, lists[zi := Without(lists[zi], k)], idle)
  {
    hide Chain;
    var l := lists[zi];
    ChainAt(next, heads[zi], l, k);
    if k == 0 {
      assert Without(l, 0) == l[1..];
    } else {
      var p, v := l[k - 1], next[l[k]];
      assert p in l;
      ChainRemove(next, heads[zi], l, k);
      ChainFrame(next, spare, idle, p, v);
      var lists' := lists[zi := Without(l, k)];
      forall i | 0 <= i < |lists|
        ensures Chain(next[p := v], heads[i], lists'[i])
      {
        if i != zi { ChainFrame(next, heads[i], lists[i], p, v); }
      }
    }
  }

  // ---- free chunks ----

  /** Where chunk i of zone a begins. */
  function ChunkAddr(a: int, z: Zone, i: int): int { a * PAGE + OffsetOf(z) + i * z.Chunk() }

  function Addrs(a: int, z: Zone, s: seq<int>): (r: seq<int>)
    ensures |r| == |s| && forall k :: 0 <= k < |s| ==> r[k] == ChunkAddr(a, z, s[k])
  {
    seq(|s|, k requires 0 <= k < |s| => ChunkAddr(a, z, s[k]))
  }

  /** The header of a zone in use. */
  datatype Header = Header(nfree: int, nmax: int, base: int, uindex: int, chunkSize: nat, zoneIndex: nat, freeChunk: int)

  /** The header and the links of its free chunks say what zone a looks like. */
  ghost predicate Written(h: Header, links: map<int, int>, a: int, z: Zone) {
    && h.nfree == z.Free() && h.nmax == z.nmax && h.base == a * PAGE + OffsetOf(z) && h.uindex == z.uindex
    && h.chunkSize == z.Chunk() && h.zoneIndex == z.index
    && Chain(links, h.freeChunk, Addrs(a, z, z.freed))
  }

  /** A chunk link inside another zone is not on this one's list. */
  lemma WrittenElsewhere(size: nat, h: Header, links: map<int, int>, a: int, z: Zone, b: int, x: int, v: int)
    requires Written(h, links, a, z) && ZoneSize(size) && ZoneOk(size, z)
    requires a + ZonePages(size) <= b || b + ZonePages(size) <= a
    requires b * PAGE <= x < (b + ZonePages(size)) * PAGE
    ensures Written(h, links[x := v], a, z)
  {
    hide Addrs, Chain;
    FreedInside(size, a, z, x);
    ChainFrame(links, h.freeChunk, Addrs(a, z, z.freed), x, v);
  }

  lemma FreedInside(size: nat, a: int, z: Zone, x: int)
    requires ZoneSize(size) && ZoneOk(size, z)
    ensures x in Addrs(a, z, z.freed) ==> a * PAGE <= x < (a + ZonePages(size)) * PAGE
  {
    var s := Addrs(a, z, z.freed);
    if x in s {
      var k :| 0 <= k < |s| && s[k] == x;
      assert z.freed[k] in z.freed;
      InsideZone(size, a, z, z.freed[k]);
    }
  }

  lemma InsideZone(size: nat, a: int, z: Zone, i: int)
    requires ZoneSize(size) && ZoneOk(size, z) && 0 <= i < z.nmax
    ensures a * PAGE <= ChunkAddr(a, z, i) < (a + ZonePages(size)) * PAGE && z.Chunk() > 0
  {
    hide Offset, Capacity, Limit;
    ZoneFits(size, z.index);
    ChunkEnd(i, z.nmax, z.Chunk());
  }

  /** A chunk goes to the front of the list. */
  lemma PushChunk(h: Header, links: map<int, int>, a: int, z: Zone, i: int)
    requires Written(h, links, a, z) && ChunkAddr(a, z, i) !in Addrs(a, z, z.freed) && ChunkAddr(a, z, i) != NULL
    ensures var x := ChunkAddr(a, z, i);
            Written(h.(freeChunk := x, nfree := h.nfree + 1), links[x := h.freeChunk], a, z.(freed := [i] + z.freed))
  {
    var x, z' := ChunkAddr(a, z, i), z.(freed := [i] + z.freed);
    ChainFrame(links, h.freeChunk, Addrs(a, z, z.freed), x, h.freeChunk);
    ChainCons(links[x := h.freeChunk], x, Addrs(a, z, z.freed));
    assert Addrs(a, z', z'.freed) == [x] + Addrs(a, z, z.freed);
  }

  /** The first chunk of the list is taken. */
  lemma PopChunk(h: Header, links: map<int, int>, a: int, z: Zone)
    requires Written(h, links, a, z) && z.freed != []
    ensures h.freeChunk == ChunkAddr(a, z, z.freed[0]) && h.freeChunk in links
    ensures Written(h.(freeChunk := links[h.freeChunk], nfree := h.nfree - 1), links, a, z.(freed := z.freed[1..]))
  {
    var z' := z.(freed := z.freed[1..]);
    assert Addrs(a, z', z'.freed) == Addrs(a, z, z.freed)[1..];
  }

  /** Different chunks of a zone begin at different places. */
  lemma AddrUnique(size: nat, a: int, z: Zone, i: int)
    requires ZoneSize(size) && ZoneOk(size, z) && z.Used(i)
    ensures ChunkAddr(a, z, i) !in Addrs(a, z, z.freed)
  {
    var s, x := Addrs(a, z, z.freed), ChunkAddr(a, z, i);
    if x in s {
      var k :| 0 <= k < |s| && s[k] == x;
      assert z.freed[k] in z.freed;
      InsideZone(size, a, z, i);
      var j := z.freed[k];
      if i < j { ChunkEnd(i, j, z.Chunk()); } else { ChunkEnd(j, i, z.Chunk()); }
    }
  }

  // ---- all zones in use ----

  ghost predicate AllWritten(header: map<int, Header>, links: map<int, int>, zones: map<int, Zone>) {
    forall a :: a in zones ==> a in header && Written(header[a], links, a, zones[a])
  }

  /** Zone a is rewritten, with a chunk link at x inside it. */
  lemma OneWritten(size: nat, header: map<int, Header>, links: map<int, int>, zones: map<int, Zone>, a: int, h: Header, z: Zone,
                   x: int, v: int)
    requires AllWritten(header, links, zones) && ZoneSize(size)
    requires forall b :: b in zones ==> ZoneOk(size, zones[b])
    requires forall b :: b in zones && b != a ==> b + ZonePages(size) <= a || a + ZonePages(size) <= b
    requires a * PAGE <= x < (a + ZonePages(size)) * PAGE && Written(h, links[x := v], a, z)
    ensures AllWritten(header[a := h], links[x := v], zones[a := z])
  {
    hide Written, ZoneOk, ZonePages, ZoneSize;
    forall b | b in zones && b != a
      ensures Written(header[b], links[x := v], b, zones[b])
    {
      WrittenElsewhere(size, header[b], links, b, zones[b], a, x, v);
    }
  }

  lemma HeaderWritten(header: map<int, Header>, links: map<int, int>, zones: map<int, Zone>, a: int, h: Header, z: Zone)
    requires AllWritten(header, links, zones) && Written(h, links, a, z)
    ensures AllWritten(header[a := h], links, zones[a := z])
  {
    hide Written;
  }
}
