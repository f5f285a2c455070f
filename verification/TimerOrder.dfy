/** The order of pending timers: by deadline, and among equal deadlines by start. */
module TimerOrder {
  import opened Rings

  /** Deadline in absolute time, and the number of the start call that set it. */
  datatype Key = Key(deadline: int, start: int)

  type Keys = map<int, Key>

  predicate Less(x: Key, y: Key) {
    x.deadline < y.deadline || (x.deadline == y.deadline && x.start < y.start)
  }

  ghost predicate Sorted(s: seq<int>, keys: Keys) {
    && (forall i :: 0 <= i < |s| ==> s[i] in keys)
    && forall i, j :: 0 <= i < j < |s| ==> Less(keys[s[i]], keys[s[j]])
  }

  /** How many timers at the front are not later than d. */
  ghost function Slot(s: seq<int>, keys: Keys, d: int): (k: nat)
    requires forall i :: 0 <= i < |s| ==> s[i] in keys
    ensures k <= |s|
  {
    if s == [] || keys[s[0]].deadline > d then 0 else 1 + Slot(s[1..], keys, d)
  }

  lemma {:induction false} SlotSplits(s: seq<int>, keys: Keys, d: int)
    requires Sorted(s, keys)
    ensures forall i :: 0 <= i < Slot(s, keys, d) ==> keys[s[i]].deadline <= d
    ensures forall i :: Slot(s, keys, d) <= i < |s| ==> keys[s[i]].deadline > d
  {
    if s != [] && keys[s[0]].deadline <= d {
      SlotSplits(s[1..], keys, d);
      var k := Slot(s[1..], keys, d);
      forall i | 0 <= i < |s|
        ensures i < k + 1 ==> keys[s[i]].deadline <= d
        ensures i >= k + 1 ==> keys[s[i]].deadline > d
      {
        if i > 0 { assert s[1..][i - 1] == s[i]; }
      }
    }
  }

  /** The first position whose timer is later than d is the slot. */
  lemma SlotIs(s: seq<int>, keys: Keys, d: int, k: nat)
    requires Sorted(s, keys) && k <= |s|
    requires k > 0 ==> keys[s[k - 1]].deadline <= d
    requires k < |s| ==> keys[s[k]].deadline > d
    ensures Slot(s, keys, d) == k
  {
    SlotSplits(s, keys, d);
  }

  /** Linear stable insertion: behind every timer that is not later. */
  ghost function StableInsert(s: seq<int>, t: int, keys: Keys, d: int): seq<int>
    requires forall i :: 0 <= i < |s| ==> s[i] in keys
  {
    var k := Slot(s, keys, d);
    s[..k] + [t] + s[k..]
  }

  lemma InsertMembers(s: seq<int>, t: int, keys: Keys, d: int, x: int)
    requires forall i :: 0 <= i < |s| ==> s[i] in keys
    ensures x in StableInsert(s, t, keys, d) <==> x == t || x in s
  {
    var k := Slot(s, keys, d);
    assert s == s[..k] + s[k..];
  }

  lemma InFront(x: Key, d: int, n: int)
    requires x.deadline <= d && x.start < n
    ensures Less(x, Key(d, n))
  {}

  lemma Behind(x: Key, d: int, n: int)
    requires x.deadline > d
    ensures Less(Key(d, n), x)
  {}

  /** Starting a timer keeps a row sorted: it comes last among equal deadlines. */
  lemma InsertSorted(s: seq<int>, t: int, keys: Keys, d: int, n: int)
    requires Sorted(s, keys) && t !in s
    requires forall i :: 0 <= i < |s| ==> keys[s[i]].start < n
    ensures Sorted(StableInsert(s, t, keys, d), keys[t := Key(d, n)])
  {
    hide Slot, Less;
    var k, r, keys' := Slot(s, keys, d), StableInsert(s, t, keys, d), keys[t := Key(d, n)];
    SlotSplits(s, keys, d);
    forall i | 0 <= i < |r|
      ensures r[i] == if i < k then s[i] else if i == k then t else s[i - 1]
      ensures r[i] in keys'
    {}
    forall i, j | 0 <= i < j < |r|
      ensures Less(keys'[r[i]], keys'[r[j]])
    {
      if i == k {
        Behind(keys[s[j - 1]], d, n);
      } else if j == k {
        InFront(keys[s[i]], d, n);
      }
    }
  }

  lemma SortedDistinct(s: seq<int>, keys: Keys)
    requires Sorted(s, keys)
    ensures Distinct(s)
  {
    forall i, j | 0 <= i < j < |s|
      ensures s[i] != s[j]
    {
      assert Less(keys[s[i]], keys[s[j]]);
    }
  }

  lemma WithoutSorted(s: seq<int>, t: int, keys: Keys, keys': Keys)
    requires Sorted(s, keys) && forall x :: x in s && x != t ==> x in keys' && keys'[x] == keys[x]
    ensures Sorted(Unlisted(s, t), keys')
  {
    var r := Unlisted(s, t);
    SortedDistinct(s, keys);
    if t in s {
      var k := IndexOf(s, t);
      forall i | 0 <= i < |r|
        ensures r[i] in keys' && keys'[r[i]] == keys[if i < k then s[i] else s[i + 1]]
      {
        UnlistedMember(s, t, r[i]);
      }
    }
  }

  // ---- rows ----

  ghost predicate Within(x: seq<int>, y: seq<int>) { forall t :: t in x ==> t in y }

  /** x is y with some elements left out. */
  predicate Subsequence(x: seq<int>, y: seq<int>)
    decreases |y|
  {
    x == [] || (y != [] && if x[0] == y[0] then Subsequence(x[1..], y[1..]) else Subsequence(x, y[1..]))
  }

  lemma SortedTail(s: seq<int>, keys: Keys)
    requires Sorted(s, keys) && s != []
    ensures Sorted(s[1..], keys) && s[0] !in s[1..]
  {
    assert forall i :: 0 <= i < |s[1..]| ==> s[1..][i] == s[i + 1];
    SortedDistinct(s, keys);
  }

  /** Two sorted rows, one within the other: the upper one is a subsequence of the lower. */
  lemma {:induction false} SortedWithinIsSubsequence(x: seq<int>, y: seq<int>, keys: Keys)
    requires Sorted(x, keys) && Sorted(y, keys) && Within(x, y)
    ensures Subsequence(x, y)
    decreases |y|
  {
    if x != [] {
      var h := x[0];
      assert h in x;
      assert h in y;
      SortedTail(y, keys);
      SortedTail(x, keys);
      if x[0] == y[0] {
        forall t | t in x[1..]
          ensures t in y[1..]
        {
          var i :| 0 <= i < |x[1..]| && x[1..][i] == t;
          assert x[i + 1] == t && t != x[0];
          TailMember(y, t);
        }
        SortedWithinIsSubsequence(x[1..], y[1..], keys);
      } else {
        forall t | t in x
          ensures t in y[1..]
        {
          FirstIsLeast(x, keys, t);
          FirstIsLeast(y, keys, x[0]);
          TailMember(y, t);
        }
        SortedWithinIsSubsequence(x, y[1..], keys);
      }
    }
  }

  lemma TailMember(y: seq<int>, t: int)
    requires t in y && t != y[0]
    ensures t in y[1..]
  {
    assert y == [y[0]] + y[1..];
  }

  lemma FirstIsLeast(x: seq<int>, keys: Keys, t: int)
    requires Sorted(x, keys) && t in x
    ensures t == x[0] || Less(keys[x[0]], keys[t])
  {
    var i :| 0 <= i < |x| && x[i] == t;
  }
}
