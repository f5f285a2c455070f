/** Circular doubly linked lists whose links are two maps from node to node. */
module Rings {

  ghost predicate Distinct(s: seq<int>) {
    forall i, j :: 0 <= i < j < |s| ==> s[i] != s[j]
  }

  function After(s: seq<int>, i: nat): int
    requires i < |s|
  {
    if i + 1 < |s| then s[i + 1] else s[0]
  }

  /** s is a circular doubly linked list. */
  ghost predicate Ring(next: map<int, int>, prev: map<int, int>, s: seq<int>) {
    && |s| > 0 && Distinct(s)
    && forall i :: 0 <= i < |s| ==>
         s[i] in next && next[s[i]] == After(s, i) && After(s, i) in prev && prev[After(s, i)] == s[i]
  }

  lemma RingPrev(next: map<int, int>, prev: map<int, int>, s: seq<int>, i: nat)
    requires Ring(next, prev, s) && i < |s|
    ensures s[i] in prev && prev[s[i]] == if i > 0 then s[i - 1] else s[|s| - 1]
  {
    var j := if i > 0 then i - 1 else |s| - 1;
    assert After(s, j) == s[i];
  }

  lemma RingNext(next: map<int, int>, prev: map<int, int>, s: seq<int>, i: nat)
    requires Ring(next, prev, s) && i < |s|
    ensures s[i] in next && next[s[i]] == After(s, i)
  {}

  function Inserted(s: seq<int>, k: nat, x: int): seq<int>
    requires k < |s|
  {
    s[..k + 1] + [x] + s[k + 1..]
  }

  /** Linking x in behind s[k]. */
  lemma RingInsert(next: map<int, int>, prev: map<int, int>, s: seq<int>, k: nat, x: int)
    requires Ring(next, prev, s) && k < |s| && x !in s
    ensures Ring(next[x := next[s[k]]][s[k] := x], prev[x := s[k]][next[s[k]] := x], Inserted(s, k, x))
  {
    var next', prev', t := next[x := next[s[k]]][s[k] := x], prev[x := s[k]][next[s[k]] := x], Inserted(s, k, x);
    forall i | 0 <= i < |t|
      ensures t[i] in next' && next'[t[i]] == After(t, i) && After(t, i) in prev' && prev'[After(t, i)] == t[i]
    {
      if i < k {
        assert t[i] == s[i] && After(t, i) == After(s, i) == s[i + 1];
      } else if i > k + 1 {
        assert t[i] == s[i - 1] && After(t, i) == After(s, i - 1);
      }
    }
  }

  /** Unlinking s[k]. */
  lemma RingRemove(next: map<int, int>, prev: map<int, int>, s: seq<int>, k: nat)
    requires Ring(next, prev, s) && k < |s| && |s| > 1
    requires s[k] in prev
    ensures Ring(next[prev[s[k]] := next[s[k]]], prev[next[s[k]] := prev[s[k]]], Without(s, k))
  {
    var x, t := s[k], Without(s, k);
    RingPrev(next, prev, s, k);
    var next', prev' := next[prev[x] := next[x]], prev[next[x] := prev[x]];
    forall i | 0 <= i < |t|
      ensures t[i] in next' && next'[t[i]] == After(t, i) && After(t, i) in prev' && prev'[After(t, i)] == t[i]
    {
      var j := if i < k then i else i + 1;
      assert t[i] == s[j];
      if j + 1 == k || (k == 0 && j == |s| - 1) {
        assert prev[x] == s[j];
      } else {
        assert After(t, i) == After(s, j);
      }
    }
  }

  /** A ring does not depend on nodes that are not in it. */
  lemma RingFrame(next: map<int, int>, prev: map<int, int>, next': map<int, int>, prev': map<int, int>, s: seq<int>)
    requires Ring(next, prev, s)
    requires forall i :: 0 <= i < |s| ==> s[i] in next' && next'[s[i]] == next[s[i]]
    requires forall i :: 0 <= i < |s| && s[i] in prev ==> s[i] in prev' && prev'[s[i]] == prev[s[i]]
    ensures Ring(next', prev', s)
  {
    forall i | 0 <= i < |s|
      ensures After(s, i) in prev' && prev'[After(s, i)] == s[i]
    {
      var j := if i + 1 < |s| then i + 1 else 0;
      assert s[j] == After(s, i);
    }
  }

  // ---- distinct sequences ----

  function Without(s: seq<int>, k: nat): seq<int>
    requires k < |s|
  {
    s[..k] + s[k + 1..]
  }

  function IndexOf(s: seq<int>, x: int): (k: nat)
    requires x in s
    ensures k < |s| && s[k] == x
  {
    if s[0] == x then 0 else 1 + IndexOf(s[1..], x)
  }

  function Unlisted(s: seq<int>, x: int): seq<int> {
    if x in s then Without(s, IndexOf(s, x)) else s
  }

  lemma {:induction false} IndexUnique(s: seq<int>, k: nat)
    requires Distinct(s) && k < |s|
    ensures IndexOf(s, s[k]) == k
  {
    var j := IndexOf(s, s[k]);
  }

  lemma WithoutMember(s: seq<int>, k: nat, x: int)
    requires Distinct(s) && k < |s|
    ensures x in Without(s, k) <==> x in s && x != s[k]
  {
    if x in s && x != s[k] {
      var j := IndexOf(s, x);
      if j < k { assert Without(s, k)[j] == x; } else { assert Without(s, k)[j - 1] == x; }
    }
    if x in Without(s, k) {
      var w := Without(s, k);
      var j := IndexOf(w, x);
      assert x == if j < k then s[j] else s[j + 1];
    }
  }

  lemma WithoutDistinct(s: seq<int>, k: nat)
    requires Distinct(s) && k < |s|
    ensures Distinct(Without(s, k))
  {}

  lemma UnlistedMember(s: seq<int>, y: int, x: int)
    requires Distinct(s)
    ensures x in Unlisted(s, y) <==> x in s && x != y
    ensures Distinct(Unlisted(s, y))
  {
    if y in s {
      WithoutMember(s, IndexOf(s, y), x);
      WithoutDistinct(s, IndexOf(s, y));
    }
  }

  lemma TailDistinct(s: seq<int>)
    requires Distinct(s) && s != []
    ensures Distinct(s[1..])
    ensures forall x :: x in s[1..] <==> x in s && x != s[0]
  {
    assert s == [s[0]] + s[1..];
    assert forall i :: 0 <= i < |s| - 1 ==> s[1..][i] == s[i + 1];
  }

  // ---- how many elements ----

  function Range(n: nat): (r: set<int>)
    ensures |r| == n && forall x :: x in r <==> 0 <= x < n
  {
    if n == 0 then {} else Range(n - 1) + {n - 1}
  }

  function Elements(s: seq<int>): set<int> { set x | x in s }

  lemma {:induction false} DistinctSize(s: seq<int>)
    requires Distinct(s)
    ensures |Elements(s)| == |s|
  {
    if s != [] {
      TailDistinct(s);
      DistinctSize(s[1..]);
      assert Elements(s) == Elements(s[1..]) + {s[0]};
    }
  }

  /** n distinct numbers below n are all of them. */
  lemma Pigeonhole(s: seq<int>, n: nat)
    requires Distinct(s) && |s| == n && forall x :: x in s ==> 0 <= x < n
    ensures forall x :: 0 <= x < n ==> x in s
  {
    DistinctSize(s);
    assert Elements(s) <= Range(n);
    SameSize(Elements(s), Range(n));
    forall x | 0 <= x < n
      ensures x in s
    {
      assert x in Range(n) && x in Elements(s);
    }
  }

  lemma SameSize(a: set<int>, b: set<int>)
    requires a <= b && |a| == |b|
    ensures a == b
  {
    assert b == a + (b - a) && |b| == |a| + |b - a|;
    assert b - a == {};
  }

  lemma FewBelow(s: seq<int>, n: nat)
    requires Distinct(s) && forall x :: x in s ==> 0 <= x < n
    ensures |s| <= n
  {
    DistinctSize(s);
    Subset(Elements(s), Range(n));
  }

  lemma Subset(a: set<int>, b: set<int>)
    requires a <= b
    ensures |a| <= |b|
  {
    assert |b| == |a| + |b - a|;
  }
}
