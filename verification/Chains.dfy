/** Singly linked lists that run through a map of links and end with the null pointer. */
module Chains {
  import opened Rings

  const NULL := -1

  ghost predicate Chain(next: map<int, int>, head: int, s: seq<int>)
    decreases |s|
  {
    if s == [] then head == NULL
    else head == s[0] && head != NULL && head in next && Chain(next, next[head], s[1..])
  }

  /** A list does not depend on the links of other nodes. */
  lemma {:induction false} ChainFrame(next: map<int, int>, head: int, s: seq<int>, n: int, v: int)
    requires Chain(next, head, s) && n !in s
    ensures Chain(next[n := v], head, s)
    decreases |s|
  {
    if s != [] {
      assert forall x :: x in s[1..] ==> x in s;
      ChainFrame(next, next[head], s[1..], n, v);
    }
  }

  /** Linking a last node behind the tail. */
  lemma {:induction false} ChainAppend(next: map<int, int>, head: int, s: seq<int>, n: int)
    requires Chain(next, head, s) && s != [] && Distinct(s) && n !in s && n != NULL && n in next && next[n] == NULL
    ensures s[|s| - 1] in next && Chain(next[s[|s| - 1] := n], head, s + [n])
    decreases |s|
  {
    if |s| == 1 {
      assert (s + [n])[1..] == [n];
      assert s[1..] == [];
    } else {
      TailDistinct(s);
      assert s[1..][|s| - 2] == s[|s| - 1];
      ChainAppend(next, next[head], s[1..], n);
      assert (s + [n])[1..] == s[1..] + [n];
      assert s[|s| - 1] in s[1..];
    }
  }

  lemma ChainHead(next: map<int, int>, head: int, s: seq<int>)
    requires Chain(next, head, s)
    ensures head == NULL <==> s == []
    ensures s != [] ==> head == s[0] && head != NULL && head in next && Chain(next, next[head], s[1..])
  {}

  lemma ChainCons(next: map<int, int>, n: int, s: seq<int>)
    requires n != NULL && n in next && Chain(next, next[n], s)
    ensures Chain(next, n, [n] + s)
  {
    assert ([n] + s)[1..] == s;
  }

  lemma ChainOne(next: map<int, int>, n: int)
    requires n != NULL && n in next && next[n] == NULL
    ensures Chain(next, n, [n])
  {
    assert [n][1..] == [];
  }

  lemma LastNull(s: seq<int>)
    requires forall x :: x in s ==> x >= 0
    ensures s == [] <==> Last(s) == NULL
    ensures s != [] ==> Last(s) in s
  {
    if s != [] { assert Last(s) in s; }
  }

  function Last(s: seq<int>): int {
    if s == [] then NULL else s[|s| - 1]
  }
}
