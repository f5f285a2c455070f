/** The page allocator of slab.c on plain lists of free runs; addresses and sizes are counted in pages. */
module PageRuns {

  datatype Run = Run(addr: int, pages: int) {
    function End(): int { addr + pages }
  }

  /** In address order, not empty, and maximally coalesced: between two runs at least one page is missing. */
  ghost predicate Normal(s: seq<Run>) {
    && (forall i :: 0 <= i < |s| ==> s[i].pages > 0)
    && forall i, j :: 0 <= i < j < |s| ==> s[i].End() < s[j].addr
  }

  ghost predicate Free(s: seq<Run>, p: int) {
    exists i :: 0 <= i < |s| && s[i].addr <= p < s[i].End()
  }

  lemma NormalTail(s: seq<Run>)
    requires Normal(s) && s != []
    ensures Normal(s[1..]) && s[0].pages > 0 && (|s| > 1 ==> s[0].End() < s[1].addr)
    ensures forall p :: Free(s, p) <==> s[0].addr <= p < s[0].End() || Free(s[1..], p)
    ensures forall p :: Free(s[1..], p) ==> s[0].End() < p
  {
    assert forall i :: 0 <= i < |s| - 1 ==> s[1..][i] == s[i + 1];
    forall p
      ensures Free(s, p) <==> s[0].addr <= p < s[0].End() || Free(s[1..], p)
    {
      if Free(s, p) {
        var i :| 0 <= i < |s| && s[i].addr <= p < s[i].End();
        if i > 0 { assert s[1..][i - 1] == s[i]; }
      }
      if Free(s[1..], p) {
        var i :| 0 <= i < |s[1..]| && s[1..][i].addr <= p < s[1..][i].End();
        assert s[i + 1] == s[1..][i];
      }
    }
  }

  /** Putting a run in front. */
  lemma NormalCons(r: Run, s: seq<Run>)
    requires Normal(s) && r.pages > 0 && (s != [] ==> r.End() < s[0].addr)
    ensures Normal([r] + s)
    ensures forall p :: Free([r] + s, p) <==> r.addr <= p < r.End() || Free(s, p)
  {
    var t := [r] + s;
    assert forall i :: 0 < i < |t| ==> t[i] == s[i - 1];
    assert t[1..] == s;
    NormalTail(t);
  }

  lemma FirstFree(s: seq<Run>)
    requires Normal(s)
    ensures s != [] ==> Free(s, s[0].addr)
    ensures s == [] ==> forall p :: !Free(s, p)
  {}

  /** The pages determine the list. */
  lemma {:induction false} Canonical(s: seq<Run>, t: seq<Run>)
    requires Normal(s) && Normal(t) && forall p :: Free(s, p) <==> Free(t, p)
    ensures s == t
    decreases |s|
  {
    FirstFree(s);
    FirstFree(t);
    if s != [] {
      NormalTail(s);
      NormalTail(t);
      assert Free(s, s[0].End() - 1) && Free(t, t[0].End() - 1);
      assert !Free(s, s[0].End()) && !Free(t, t[0].End());
      assert s[0].addr == t[0].addr;
      assert s[0] == t[0];
      forall p
        ensures Free(s[1..], p) <==> Free(t[1..], p)
      {
        assert Free(s, p) <==> Free(t, p);
      }
      Canonical(s[1..], t[1..]);
    }
  }

  // ---- allocating ----

  datatype Taken = Nothing | Taken(addr: int)

  datatype Allocated = Allocated(result: Taken, rest: seq<Run>)

  /** First fit: the front of the first run that is large enough. */
  function Alloc(s: seq<Run>, n: nat): Allocated {
    if s == [] then Allocated(Nothing, [])
    else if s[0].pages > n then Allocated(Taken(s[0].addr), [Run(s[0].addr + n, s[0].pages - n)] + s[1..])
    else if s[0].pages == n then Allocated(Taken(s[0].addr), s[1..])
    else
      var a := Alloc(s[1..], n);
      a.(rest := [s[0]] + a.rest)
  }

  /** n free pages in a row from a on. */
  ghost predicate Stretch(s: seq<Run>, a: int, n: nat) {
    forall p :: a <= p < a + n ==> Free(s, p)
  }

  lemma {:induction false} AllocSound(s: seq<Run>, n: nat)
    requires Normal(s) && n > 0
    ensures var r := Alloc(s, n); Normal(r.rest)
    ensures var r := Alloc(s, n); r.rest != [] ==> s != [] && s[0].addr <= r.rest[0].addr
    ensures var r := Alloc(s, n); r.result.Nothing? ==> r.rest == s
    ensures var r := Alloc(s, n); r.result.Taken? ==> Stretch(s, r.result.addr, n)
    ensures var r := Alloc(s, n); r.result.Taken? ==>
              forall p :: Free(r.rest, p) <==> Free(s, p) && !(r.result.addr <= p < r.result.addr + n)
  {
    hide Normal;
    if s != [] {
      NormalTail(s);
      if s[0].pages > n {
        NormalCons(Run(s[0].addr + n, s[0].pages - n), s[1..]);
      } else if s[0].pages < n {
        AllocSound(s[1..], n);
        var r := Alloc(s[1..], n);
        NormalCons(s[0], r.rest);
        assert r.result.Nothing? ==> [s[0]] + s[1..] == s;
        if r.result.Taken? { assert Free(s[1..], r.result.addr); }
      }
    }
  }

  /** An allocation fails exactly when nowhere n pages in a row are free. */
  lemma {:induction false} AllocFails(s: seq<Run>, n: nat)
    requires Normal(s) && n > 0
    ensures Alloc(s, n).result.Nothing? <==> !exists a :: Stretch(s, a, n)
  {
    if Alloc(s, n).result.Taken? {
      AllocSound(s, n);
      assert Stretch(s, Alloc(s, n).result.addr, n);
    } else {
      forall a
        ensures !Stretch(s, a, n)
      {
        if Stretch(s, a, n) { AllocLowest(s, n, a); }
      }
    }
  }

  /** It takes the lowest n free pages in a row. */
  lemma {:induction false} AllocLowest(s: seq<Run>, n: nat, a: int)
    requires Normal(s) && n > 0 && Stretch(s, a, n)
    ensures Alloc(s, n).result.Taken? && Alloc(s, n).result.addr <= a
  {
    assert Free(s, a) && Free(s, a + n - 1);
    if s != [] {
      NormalTail(s);
      assert !Free(s, s[0].End());
      if a >= s[0].End() {
        forall p | a <= p < a + n
          ensures Free(s[1..], p)
        {
          assert Free(s, p);
        }
        AllocLowest(s[1..], n, a);
      }
    }
  }

  // ---- freeing ----

  /** The run goes to its place in address order and is joined with its neighbours. */
  function Release(s: seq<Run>, a: int, n: int): seq<Run> {
    if s == [] then [Run(a, n)]
    else if s[0].End() == a then
      if |s| > 1 && a + n == s[1].addr then [Run(s[0].addr, s[0].pages + n + s[1].pages)] + s[2..]
      else [Run(s[0].addr, s[0].pages + n)] + s[1..]
    else if s[0].addr == a + n then [Run(a, n + s[0].pages)] + s[1..]
    else if s[0].addr > a + n then [Run(a, n)] + s
    else [s[0]] + Release(s[1..], a, n)
  }

  ghost predicate Apart(s: seq<Run>, a: int, n: int) {
    forall p :: a <= p < a + n ==> !Free(s, p)
  }

  lemma {:induction false} ReleaseSound(s: seq<Run>, a: int, n: int)
    requires Normal(s) && n > 0 && Apart(s, a, n)
    ensures Normal(Release(s, a, n))
    ensures forall p :: Free(Release(s, a, n), p) <==> Free(s, p) || a <= p < a + n
    ensures Release(s, a, n)[0].addr == a || (s != [] && Release(s, a, n)[0].addr == s[0].addr)
  {
    if s == [] {
      NormalCons(Run(a, n), []);
    } else {
      NormalTail(s);
      FirstApart(s, a, n);
      if s[0].End() == a {
        if |s| > 1 && a + n == s[1].addr {
          NormalTail(s[1..]);
          assert s[1..][1..] == s[2..] && s[1..][0] == s[1];
          NormalCons(Run(s[0].addr, s[0].pages + n + s[1].pages), s[2..]);
        } else {
          SecondApart(s, a, n);
          NormalCons(Run(s[0].addr, s[0].pages + n), s[1..]);
        }
      } else if s[0].addr == a + n {
        NormalCons(Run(a, n + s[0].pages), s[1..]);
      } else if s[0].addr > a + n {
        NormalCons(Run(a, n), s);
      } else {
        ReleaseSound(s[1..], a, n);
        assert s[0].End() < a;
        NormalCons(s[0], Release(s[1..], a, n));
      }
    }
  }

  lemma FirstApart(s: seq<Run>, a: int, n: int)
    requires Normal(s) && s != [] && n > 0 && Apart(s, a, n)
    ensures s[0].End() <= a || a + n <= s[0].addr
  {
    assert Free(s, s[0].addr);
    assert s[0].addr < a < s[0].End() ==> Free(s, a);
  }

  lemma SecondApart(s: seq<Run>, a: int, n: int)
    requires |s| > 1 ==> s[1].addr != a + n
    requires Normal(s) && s != [] && n > 0 && Apart(s, a, n) && s[0].End() == a
    ensures |s| > 1 ==> a + n < s[1].addr
  {
    if |s| > 1 { assert Free(s, s[1].addr); }
  }

  // ---- runs of allocations and releases ----

  /** The free list, and the live allocations with their sizes. */
  datatype Pages = Pages(free: seq<Run>, live: map<int, int>)

  datatype Command = Take(n: nat) | Give(addr: int)

  ghost predicate Used(live: map<int, int>, p: int) {
    exists a :: a in live && a <= p < a + live[a]
  }

  /** Free pages and live allocations share the pages lo .. hi without overlap. */
  ghost predicate Good(s: Pages, lo: int, hi: int) {
    && Normal(s.free)
    && (forall a :: a in s.live ==> s.live[a] > 0)
    && (forall p :: Free(s.free, p) || Used(s.live, p) <==> lo <= p < hi)
    && (forall p :: Free(s.free, p) ==> !Used(s.live, p))
    && forall a, b :: a in s.live && b in s.live && a < b ==> a + s.live[a] <= b
  }

  /** rt_page_alloc and rt_page_free; the caller gives back what it took, with the same size. */
  function Step(s: Pages, c: Command): Pages
    requires c.Give? ==> c.addr in s.live
  {
    match c
    case Take(n) =>
      var r := Alloc(s.free, n);
      if n == 0 || r.result.Nothing? then s else Pages(r.rest, s.live[r.result.addr := n])
    case Give(a) => Pages(Release(s.free, a, s.live[a]), s.live - {a})
  }

  lemma TakeGood(s: Pages, n: nat, lo: int, hi: int)
    requires Good(s, lo, hi)
    ensures Good(Step(s, Take(n)), lo, hi)
  {
    hide Normal, Alloc, Used, Free;
    var r := Alloc(s.free, n);
    if n > 0 && r.result.Taken? {
      AllocSound(s.free, n);
      var a, t := r.result.addr, Step(s, Take(n));
      assert t == Pages(r.rest, s.live[a := n]);
      TakenApart(s, a, n, lo, hi);
      forall p
        ensures Free(t.free, p) || Used(t.live, p) <==> lo <= p < hi
        ensures Free(t.free, p) ==> !Used(t.live, p)
      {
        assert Free(s.free, p) || Used(s.live, p) <==> lo <= p < hi;
        UsedWith(s.live, a, n, p);
      }
    }
  }

  lemma UsedWith(live: map<int, int>, a: int, n: int, p: int)
    requires a !in live || live[a] <= 0
    ensures Used(live[a := n], p) <==> Used(live, p) || a <= p < a + n
  {
    var more := live[a := n];
    if Used(live, p) {
      var b :| b in live && b <= p < b + live[b];
      assert b in more && more[b] == live[b];
    }
    if a <= p < a + n { assert a in more; }
  }

  lemma TakenApart(s: Pages, a: int, n: int, lo: int, hi: int)
    requires Good(s, lo, hi) && n > 0 && Stretch(s.free, a, n)
    ensures forall b :: b in s.live ==> b + s.live[b] <= a || a + n <= b
  {
    forall b | b in s.live
      ensures b + s.live[b] <= a || a + n <= b
    {
      var p := if a < b then b else a;
      assert b <= p < b + s.live[b] ==> Used(s.live, p);
      assert a <= p < a + n ==> Free(s.free, p);
    }
  }

  lemma GiveGood(s: Pages, a: int, lo: int, hi: int)
    requires Good(s, lo, hi) && a in s.live
    ensures Good(Step(s, Give(a)), lo, hi)
  {
    hide Normal, Release, Used, Free;
    var n, t := s.live[a], Step(s, Give(a));
    assert t == Pages(Release(s.free, a, n), s.live - {a});
    forall p
      ensures Used(s.live, p) <==> Used(t.live, p) || a <= p < a + n
      ensures Used(t.live, p) ==> !(a <= p < a + n)
    {
      UsedWithout(s, a, lo, hi, p);
    }
    assert Apart(s.free, a, n);
    ReleaseSound(s.free, a, n);
    forall p
      ensures Free(t.free, p) || Used(t.live, p) <==> lo <= p < hi
      ensures Free(t.free, p) ==> !Used(t.live, p)
    {
      assert Free(s.free, p) || Used(s.live, p) <==> lo <= p < hi;
      assert Free(s.free, p) ==> !Used(s.live, p);
    }
  }

  lemma UsedWithout(s: Pages, a: int, lo: int, hi: int, p: int)
    requires Good(s, lo, hi) && a in s.live
    ensures Used(s.live, p) <==> Used(s.live - {a}, p) || a <= p < a + s.live[a]
    ensures Used(s.live - {a}, p) ==> !(a <= p < a + s.live[a])
  {
    hide Normal, Free;
    var rest := s.live - {a};
    if Used(s.live, p) {
      var b :| b in s.live && b <= p < b + s.live[b];
      assert b != a ==> b in rest;
    }
    if Used(rest, p) {
      var b :| b in rest && b <= p < b + rest[b];
      assert b in s.live && b != a;
    }
  }

  function After(s: Pages, cmds: seq<Command>): Pages
    decreases |cmds|
  {
    if cmds == [] then s
    else if cmds[0].Give? && cmds[0].addr !in s.live then After(s, cmds[1..])
    else After(Step(s, cmds[0]), cmds[1..])
  }

  lemma {:induction false} AfterGood(s: Pages, cmds: seq<Command>, lo: int, hi: int)
    requires Good(s, lo, hi)
    ensures Good(After(s, cmds), lo, hi)
    decreases |cmds|
  {
    if cmds != [] {
      if cmds[0].Give? && cmds[0].addr !in s.live {
        AfterGood(s, cmds[1..], lo, hi);
      } else {
        match cmds[0] {
          case Take(n) => TakeGood(s, n, lo, hi);
          case Give(a) => GiveGood(s, a, lo, hi);
        }
        AfterGood(Step(s, cmds[0]), cmds[1..], lo, hi);
      }
    }
  }

  /** rt_page_init. */
  lemma InitGood(lo: int, hi: int)
    requires lo < hi
    ensures Good(Pages([Run(lo, hi - lo)], map[]), lo, hi)
    ensures Release([], lo, hi - lo) == [Run(lo, hi - lo)]
  {
    NormalCons(Run(lo, hi - lo), []);
    assert [Run(lo, hi - lo)] + [] == [Run(lo, hi - lo)];
    assert forall p :: !Free([], p);
  }

  /** No page is ever lost: when everything has been given back, in whatever order, one run is left. */
  lemma AllGivenBackIsInitial(lo: int, hi: int, cmds: seq<Command>)
    requires lo < hi && After(Pages([Run(lo, hi - lo)], map[]), cmds).live == map[]
    ensures After(Pages([Run(lo, hi - lo)], map[]), cmds).free == [Run(lo, hi - lo)]
  {
    InitGood(lo, hi);
    var i := Pages([Run(lo, hi - lo)], map[]);
    AfterGood(i, cmds, lo, hi);
    Canonical(After(i, cmds).free, i.free);
  }
}
