/** The statements of rt_page_alloc and rt_page_free on a list that runs through the free pages themselves. */
module PageCode {
  import opened PageRuns

  const NULL := 0

  function AddrAt(s: seq<Run>, i: nat): int {
    if i < |s| then s[i].addr else NULL
  }

  /** head, next and page spell out s: each run is headed by its first page. */
  ghost predicate Linked(next: map<int, int>, page: map<int, int>, head: int, s: seq<Run>) {
    && head == AddrAt(s, 0)
    && forall i :: 0 <= i < |s| ==>
         s[i].addr > 0 && s[i].addr in next && s[i].addr in page && next[s[i].addr] == AddrAt(s, i + 1) && page[s[i].addr] == s[i].pages
  }

  /** One list with the part from k to e replaced by at most one run. */
  function Spliced(s: seq<Run>, k: nat, mid: seq<Run>, e: nat): seq<Run>
    requires k <= e <= |s|
  {
    s[..k] + mid + s[e..]
  }

  /** What has to be written when a part of the list is replaced. */
  lemma SplicedLinked(next: map<int, int>, page: map<int, int>, head: int, s: seq<Run>, k: nat, mid: seq<Run>, e: nat,
                      next': map<int, int>, page': map<int, int>, head': int)
    requires Linked(next, page, head, s) && k <= e <= |s| && |mid| <= 1
    requires forall i :: 0 <= i < |s| && (i < k || e <= i) ==> s[i].addr in page' && page'[s[i].addr] == page[s[i].addr]
    requires forall i :: 0 <= i < |s| && (i < k - 1 || e <= i) ==> s[i].addr in next' && next'[s[i].addr] == next[s[i].addr]
    requires var first := if mid == [] then AddrAt(s, e) else mid[0].addr;
             if k == 0 then head' == first else head' == head && s[k - 1].addr in next' && next'[s[k - 1].addr] == first
    requires mid != [] ==> mid[0].addr > 0 && mid[0].addr in next' && next'[mid[0].addr] == AddrAt(s, e)
    requires mid != [] ==> mid[0].addr in page' && page'[mid[0].addr] == mid[0].pages
    ensures Linked(next', page', head', Spliced(s, k, mid, e))
  {
    hide Spliced;
    var t := Spliced(s, k, mid, e);
    SplicedAt(s, k, mid, e, 0);
    forall i | 0 <= i < |t|
      ensures t[i].addr > 0 && t[i].addr in next' && t[i].addr in page' && next'[t[i].addr] == AddrAt(t, i + 1) && page'[t[i].addr] == t[i].pages
    {
      SplicedAt(s, k, mid, e, i);
      SplicedAt(s, k, mid, e, i + 1);
    }
  }

  /** What stands at one position afterwards. */
  lemma SplicedAt(s: seq<Run>, k: nat, mid: seq<Run>, e: nat, i: nat)
    requires k <= e <= |s| && i <= |Spliced(s, k, mid, e)|
    ensures |Spliced(s, k, mid, e)| == |s| - e + k + |mid|
    ensures AddrAt(Spliced(s, k, mid, e), i) == if i < k then s[i].addr else if i < k + |mid| then mid[i - k].addr else AddrAt(s, i - k - |mid| + e)
    ensures i < |Spliced(s, k, mid, e)| ==>
              Spliced(s, k, mid, e)[i] == if i < k then s[i] else if i < k + |mid| then mid[i - k] else s[i - k - |mid| + e]
  {}

  lemma {:induction false} AllocSkips(s: seq<Run>, n: nat, k: nat)
    requires k <= |s| && forall i :: 0 <= i < k ==> s[i].pages < n
    ensures Alloc(s, n).result == Alloc(s[k..], n).result && Alloc(s, n).rest == s[..k] + Alloc(s[k..], n).rest
  {
    if k > 0 {
      assert forall i :: 0 <= i < k - 1 ==> s[1..][i] == s[i + 1];
      AllocSkips(s[1..], n, k - 1);
      assert s[1..][k - 1..] == s[k..];
      assert [s[0]] + (s[1..][..k - 1] + Alloc(s[k..], n).rest) == s[..k] + Alloc(s[k..], n).rest;
    } else {
      assert s[0..] == s;
    }
  }

  /** First fit, with all runs before k too small. */
  lemma AllocAt(s: seq<Run>, n: nat, k: nat)
    requires k <= |s| && forall i :: 0 <= i < k ==> s[i].pages < n
    ensures k == |s| ==> Alloc(s, n) == Allocated(Nothing, s)
    ensures k < |s| && s[k].pages > n ==>
              Alloc(s, n) == Allocated(Taken(s[k].addr), Spliced(s, k, [Run(s[k].addr + n, s[k].pages - n)], k + 1))
    ensures k < |s| && s[k].pages == n ==> Alloc(s, n) == Allocated(Taken(s[k].addr), Spliced(s, k, [], k + 1))
  {
    AllocSkips(s, n, k);
    if k < |s| {
      assert s[k..][1..] == s[k + 1..];
      assert s[..k] + ([Run(s[k].addr + n, s[k].pages - n)] + s[k + 1..]) == Spliced(s, k, [Run(s[k].addr + n, s[k].pages - n)], k + 1);
      assert s[..k] + s[k + 1..] == Spliced(s, k, [], k + 1);
    }
  }

  /** The link that leads to position k is written. */
  function NextStored(next: map<int, int>, prev: int, x: int): map<int, int> {
    if prev == NULL then next else next[prev := x]
  }

  function HeadStored(head: int, prev: int, x: int): int {
    if prev == NULL then x else head
  }

  function Before(s: seq<Run>, k: nat): int
    requires k <= |s|
  {
    if k == 0 then NULL else s[k - 1].addr
  }

  lemma Addresses(s: seq<Run>, k: nat)
    requires Normal(s) && k < |s|
    ensures s[k].pages > 0 && forall i :: 0 <= i < |s| && i < k ==> s[i].addr < s[k].addr
    ensures forall i :: 0 <= i < |s| && i > k ==> s[i].addr > s[k].End()
  {}

  lemma Elsewhere(s: seq<Run>, k: nat)
    requires Normal(s) && k <= |s|
    ensures forall i :: 0 <= i < |s| && i != k - 1 && k > 0 ==> s[i].addr != Before(s, k)
  {}

  lemma EachAt(next: map<int, int>, page: map<int, int>, head: int, s: seq<Run>, k: nat)
    requires Linked(next, page, head, s) && k < |s|
    ensures head == AddrAt(s, 0) && next[s[k].addr] == AddrAt(s, k + 1) && page[s[k].addr] == s[k].pages && s[k].addr > 0
    ensures k > 0 ==> Before(s, k) > 0 && Before(s, k) in next && Before(s, k) in page && page[Before(s, k)] == s[k - 1].pages
    ensures forall i :: 0 <= i < |s| ==> s[i].addr in next && s[i].addr in page
  {}

  /** rt_page_alloc, a larger run: its front is cut off. */
  lemma CutLinked(next: map<int, int>, page: map<int, int>, head: int, s: seq<Run>, k: nat, n: nat)
    requires Linked(next, page, head, s) && Normal(s) && k < |s| && 0 < n < s[k].pages
    requires s[k].addr in next && s[k].addr in page
    ensures var b, m, prev := s[k].addr, s[k].addr + n, Before(s, k);
            Linked(NextStored(next[m := next[b]], prev, m), page[m := page[b] - n], HeadStored(head, prev, m),
                   Spliced(s, k, [Run(m, s[k].pages - n)], k + 1))
  {
    hide Normal, Linked;
    var b, m, prev := s[k].addr, s[k].addr + n, Before(s, k);
    Addresses(s, k);
    Elsewhere(s, k);
    EachAt(next, page, head, s, k);
    SplicedLinked(next, page, head, s, k, [Run(m, s[k].pages - n)], k + 1,
                  NextStored(next[m := next[b]], prev, m), page[m := page[b] - n], HeadStored(head, prev, m));
  }

  /** rt_page_alloc, a run that fits: it is taken out. */
  lemma DropLinked(next: map<int, int>, page: map<int, int>, head: int, s: seq<Run>, k: nat)
    requires Linked(next, page, head, s) && Normal(s) && k < |s| && s[k].addr in next
    ensures var b, prev := s[k].addr, Before(s, k);
            Linked(NextStored(next, prev, next[b]), page, HeadStored(head, prev, next[b]), Spliced(s, k, [], k + 1))
  {
    hide Normal, Linked;
    var b, prev := s[k].addr, Before(s, k);
    Elsewhere(s, k);
    EachAt(next, page, head, s, k);
    SplicedLinked(next, page, head, s, k, [], k + 1, NextStored(next, prev, next[b]), page, HeadStored(head, prev, next[b]));
  }

  /** Runs that rt_page_free passes by. */
  ghost predicate Passed(s: seq<Run>, k: nat, a: int, n: int) {
    k <= |s| && forall i :: 0 <= i < k ==> s[i].End() != a && s[i].addr < a + n
  }

  lemma ReleasePasses(s: seq<Run>, a: int, n: int)
    requires s != [] && s[0].End() != a && s[0].addr < a + n
    ensures Release(s, a, n) == [s[0]] + Release(s[1..], a, n)
  {}

  lemma {:induction false} ReleaseSkips(s: seq<Run>, a: int, n: int, k: nat)
    requires Passed(s, k, a, n)
    ensures Release(s, a, n) == s[..k] + Release(s[k..], a, n)
  {
    hide Release;
    if k > 0 {
      ReleasePasses(s, a, n);
      assert forall i :: 0 <= i < k - 1 ==> s[1..][i] == s[i + 1];
      ReleaseSkips(s[1..], a, n, k - 1);
      assert s[1..][k - 1..] == s[k..];
      assert s[..k] == [s[0]] + s[1..][..k - 1];
    } else {
      assert s[0..] == s;
    }
  }

  /** The four ways in which rt_page_free ends. */
  lemma ReleaseAt(s: seq<Run>, a: int, n: int, k: nat)
    requires Passed(s, k, a, n)
    ensures k == |s| || (s[k].End() != a && s[k].addr > a + n) ==> Release(s, a, n) == Spliced(s, k, [Run(a, n)], k)
    ensures k < |s| && s[k].End() == a && (k + 1 == |s| || a + n != s[k + 1].addr) ==>
              Release(s, a, n) == Spliced(s, k, [Run(s[k].addr, s[k].pages + n)], k + 1)
    ensures k + 1 < |s| && s[k].End() == a && a + n == s[k + 1].addr ==>
              Release(s, a, n) == Spliced(s, k, [Run(s[k].addr, s[k].pages + n + s[k + 1].pages)], k + 2)
    ensures k < |s| && s[k].End() != a && s[k].addr == a + n ==> Release(s, a, n) == Spliced(s, k, [Run(a, n + s[k].pages)], k + 1)
  {
    ReleaseSkips(s, a, n, k);
    if k < |s| {
      assert s[k..][1..] == s[k + 1..];
      assert [Run(a, n)] + s[k..] == [Run(a, n)] + s[k..];
      if k + 1 < |s| { assert s[k..][1] == s[k + 1] && s[k..][2..] == s[k + 2..]; }
    }
  }

  /** A page that is not free heads no run. */
  lemma Fresh(s: seq<Run>, a: int, n: int)
    requires Normal(s) && n > 0 && Apart(s, a, n)
    ensures forall i :: 0 <= i < |s| ==> s[i].addr != a
  {
    forall i | 0 <= i < |s|
      ensures s[i].addr != a
    {
      assert s[i].addr == a ==> Free(s, a);
    }
  }

  lemma GrowLinked(next: map<int, int>, page: map<int, int>, head: int, s: seq<Run>, k: nat, n: int)
    requires Linked(next, page, head, s) && Normal(s) && k < |s| && s[k].addr in page
    ensures Linked(next, page[s[k].addr := page[s[k].addr] + n], head, Spliced(s, k, [Run(s[k].addr, s[k].pages + n)], k + 1))
  {
    Addresses(s, k);
    EachAt(next, page, head, s, k);
    SplicedLinked(next, page, head, s, k, [Run(s[k].addr, s[k].pages + n)], k + 1, next, page[s[k].addr := page[s[k].addr] + n], head);
  }

  lemma MergeLinked(next: map<int, int>, page: map<int, int>, head: int, s: seq<Run>, k: nat, n: int)
    requires Linked(next, page, head, s) && Normal(s) && k + 1 < |s|
    requires s[k].addr in page && s[k + 1].addr in page && s[k + 1].addr in next
    ensures Linked(next[s[k].addr := next[s[k + 1].addr]], page[s[k].addr := page[s[k].addr] + n + page[s[k + 1].addr]], head,
                   Spliced(s, k, [Run(s[k].addr, s[k].pages + n + s[k + 1].pages)], k + 2))
  {
    hide Normal, Linked;
    Addresses(s, k);
    Addresses(s, k + 1);
    if k > 0 { EachAt(next, page, head, s, k - 1); }
    EachAt(next, page, head, s, k);
    EachAt(next, page, head, s, k + 1);
    SplicedLinked(next, page, head, s, k, [Run(s[k].addr, s[k].pages + n + s[k + 1].pages)], k + 2,
                  next[s[k].addr := next[s[k + 1].addr]], page[s[k].addr := page[s[k].addr] + n + page[s[k + 1].addr]], head);
  }

  lemma JoinLinked(next: map<int, int>, page: map<int, int>, head: int, s: seq<Run>, k: nat, a: int, n: int)
    requires Linked(next, page, head, s) && Normal(s) && k < |s| && s[k].addr in page && s[k].addr in next
    requires a > 0 && forall i :: 0 <= i < |s| ==> s[i].addr != a
    ensures var prev := Before(s, k);
            Linked(NextStored(next[a := next[s[k].addr]], prev, a), page[a := page[s[k].addr] + n], HeadStored(head, prev, a),
                   Spliced(s, k, [Run(a, n + s[k].pages)], k + 1))
  {
    hide Normal, Linked;
    Elsewhere(s, k);
    EachAt(next, page, head, s, k);
    var prev := Before(s, k);
    SplicedLinked(next, page, head, s, k, [Run(a, n + s[k].pages)], k + 1,
                  NextStored(next[a := next[s[k].addr]], prev, a), page[a := page[s[k].addr] + n], HeadStored(head, prev, a));
  }

  lemma InsertLinked(next: map<int, int>, page: map<int, int>, head: int, s: seq<Run>, k: nat, a: int, n: int)
    requires Linked(next, page, head, s) && Normal(s) && k <= |s|
    requires a > 0 && forall i :: 0 <= i < |s| ==> s[i].addr != a
    ensures var prev := Before(s, k);
            Linked(NextStored(next[a := AddrAt(s, k)], prev, a), page[a := n], HeadStored(head, prev, a), Spliced(s, k, [Run(a, n)], k))
  {
    hide Normal;
    Elsewhere(s, k);
    var prev := Before(s, k);
    SplicedLinked(next, page, head, s, k, [Run(a, n)], k,
                  NextStored(next[a := AddrAt(s, k)], prev, a), page[a := n], HeadStored(head, prev, a));
  }

  class PageList {
    var head: int                  // rt_page_list
    var next: map<int, int>
    var page: map<int, int>
    ghost var free: seq<Run>

    ghost predicate Valid()
      reads this
    {
      Linked(next, page, head, free) && Normal(free)
    }

    /** *prev = x, where prev is the head pointer or the link word of a page. */
    method Store(prev: int, x: int)
      modifies `head, `next
      ensures next == NextStored(old(next), prev, x) && head == HeadStored(old(head), prev, x)
    {
      if prev == NULL { head := x; } else { next := next[prev := x]; }
    }

    /** rt_page_alloc. */
    method PageAlloc(npages: nat) returns (b: int)
      requires Valid()
      modifies this
      ensures Valid()
      ensures npages == 0 ==> b == NULL && free == old(free)
      ensures npages > 0 ==> free == Alloc(old(free), npages).rest
      ensures npages > 0 ==> b == match Alloc(old(free), npages).result case Nothing => NULL case Taken(a) => a
    {
      hide Linked, Normal, Alloc, Spliced, NextStored, HeadStored;
      if npages == 0 { return NULL; }
      AllocSound(free, npages);
      var prev := NULL;
      b := head;
      ghost var k := 0;
      At(next, page, head, free, 0);
      while b != NULL
        invariant Valid() && free == old(free)
        invariant k <= |free| && b == AddrAt(free, k) && prev == Before(free, k)
        invariant b != NULL <==> k < |free|
        invariant forall i :: 0 <= i < k ==> free[i].pages < npages
        decreases |free| - k
      {
        At(next, page, head, free, k);
        AllocAt(free, npages, k);
        if page[b] > npages {
          CutLinked(next, page, head, free, k, npages);
          var n := b + npages;
          next := next[n := next[b]];
          page := page[n := page[b] - npages];
          Store(prev, n);
          free := Spliced(free, k, [Run(n, free[k].pages - npages)], k + 1);
          return;
        }
        if page[b] == npages {
          DropLinked(next, page, head, free, k);
          Store(prev, next[b]);
          free := Spliced(free, k, [], k + 1);
          return;
        }
        prev := b;
        b := next[b];
        k := k + 1;
        At(next, page, head, free, k);
      }
      AllocAt(free, npages, |free|);
    }

    /** rt_page_free. */
    method PageFree(addr: int, npages: int)
      requires Valid() && addr > 0 && npages > 0 && Apart(free, addr, npages)
      modifies this
      ensures Valid() && free == Release(old(free), addr, npages)
    {
      hide Linked, Normal, Release, Spliced, NextStored, HeadStored, Apart;
      ReleaseSound(free, addr, npages);
      Fresh(free, addr, npages);
      var prev, n := NULL, addr;
      var b := head;
      ghost var k := 0;
      At(next, page, head, free, 0);
      while b != NULL
        invariant Valid() && free == old(free) && k <= |free|
        invariant b == AddrAt(free, k) && prev == Before(free, k) && (b != NULL <==> k < |free|)
        invariant Passed(free, k, addr, npages)
        decreases |free| - k
      {
        At(next, page, head, free, k);
        At(next, page, head, free, if k + 1 < |free| then k + 1 else k);
        ReleaseAt(free, addr, npages, k);
        if b + page[b] == n {
          if b + (page[b] + npages) == next[b] {
            MergeLinked(next, page, head, free, k, npages);
            page := page[b := page[b] + npages + page[next[b]]];
            next := next[b := next[next[b]]];
            free := Spliced(free, k, [Run(b, free[k].pages + npages + free[k + 1].pages)], k + 2);
          } else {
            GrowLinked(next, page, head, free, k, npages);
            page := page[b := page[b] + npages];
            free := Spliced(free, k, [Run(b, free[k].pages + npages)], k + 1);
          }
          return;
        }
        if b == n + npages {
          JoinLinked(next, page, head, free, k, n, npages);
          page := page[n := page[b] + npages];
          next := next[n := next[b]];
          Store(prev, n);
          free := Spliced(free, k, [Run(n, npages + free[k].pages)], k + 1);
          return;
        }
        if b > n + npages {
          break;
        }
        prev := b;
        b := next[b];
        k := k + 1;
        At(next, page, head, free, k);
      }
      ReleaseAt(free, addr, npages, k);
      InsertLinked(next, page, head, free, k, n, npages);
      page := page[n := npages];
      next := next[n := b];
      Store(prev, n);
      free := Spliced(free, k, [Run(n, npages)], k);
    }

    /** rt_page_init. */
    constructor (addr: int, npages: int)
      requires addr > 0 && npages > 0
      ensures Valid() && free == [Run(addr, npages)]
    {
      head, next, page, free := NULL, map[], map[], [];
      new;
      PageFree(addr, npages);
    }

    /** A run of allocations and releases, with the sizes of what is live kept by the caller. */
    method RunAll(cmds: seq<Command>, live: map<int, int>, ghost lo: int, ghost hi: int) returns (live': map<int, int>)
      requires Valid() && 0 < lo && Good(Pages(free, live), lo, hi)
      modifies this
      ensures Valid() && Pages(free, live') == After(old(Pages(free, live)), cmds)
      decreases |cmds|
    {
      hide Good, Alloc, Release, Normal, Linked;
      live' := live;
      if cmds != [] {
        match cmds[0] {
          case Take(n) =>
            TakeGood(Pages(free, live), n, lo, hi);
            NotNull(Pages(free, live), n, lo, hi);
            var b := PageAlloc(n);
            if b != NULL { live' := live[b := n]; }
          case Give(a) =>
            if a in live {
              GiveGood(Pages(free, live), a, lo, hi);
              LiveApart(Pages(free, live), a, lo, hi);
              PageFree(a, live[a]);
              live' := live - {a};
            }
        }
        live' := RunAll(cmds[1..], live', lo, hi);
      }
    }
  }

  /** What is found at one position of the list. */
  lemma At(next: map<int, int>, page: map<int, int>, head: int, s: seq<Run>, k: nat)
    requires Linked(next, page, head, s) && k <= |s|
    ensures head == AddrAt(s, 0) && (AddrAt(s, k) != NULL <==> k < |s|)
    ensures k < |s| ==> s[k].addr in next && s[k].addr in page && next[s[k].addr] == AddrAt(s, k + 1) && page[s[k].addr] == s[k].pages
  {}

  lemma NotNull(s: Pages, n: nat, lo: int, hi: int)
    requires Good(s, lo, hi) && 0 < lo
    ensures n > 0 && Alloc(s.free, n).result.Taken? ==> Alloc(s.free, n).result.addr > 0
    ensures n > 0 && Alloc(s.free, n).result.Nothing? ==> Alloc(s.free, n).rest == s.free
  {
    if n > 0 {
      AllocSound(s.free, n);
      if Alloc(s.free, n).result.Taken? { assert Free(s.free, Alloc(s.free, n).result.addr); }
    }
  }

  lemma LiveApart(s: Pages, a: int, lo: int, hi: int)
    requires Good(s, lo, hi) && 0 < lo && a in s.live
    ensures a > 0 && s.live[a] > 0 && Apart(s.free, a, s.live[a])
  {
    assert Used(s.live, a);
    assert forall p :: a <= p < a + s.live[a] ==> Used(s.live, p);
  }
}
