/** The kernel timers of timer.c: a skip list of any number of rows over a wrapping tick.

    Every timer has one node in each row; a node that is not in a row points to itself. */
module TimerRows {
  import opened Rings

  const HEAD := -1

  /** One row: the ring through the list head and the timers of s, all other nodes alone. */
  ghost predicate Row(next: map<int, int>, prev: map<int, int>, s: seq<int>, count: nat) {
    && Ring(next, prev, [HEAD] + s)
    && (forall t :: t in s ==> 0 <= t < count)
    && (forall t :: 0 <= t < count ==> t in next && t in prev)
    && (forall t :: 0 <= t < count && t !in s ==> next[t] == t && prev[t] == t)
  }

  lemma ConsDistinct(x: int, s: seq<int>)
    requires Distinct([x] + s)
    ensures Distinct(s) && x !in s
  {
    var r := [x] + s;
    forall i, j | 0 <= i < j < |s|
      ensures s[i] != s[j]
    {
      assert r[i + 1] != r[j + 1];
    }
    forall i | 0 <= i < |s|
      ensures s[i] != x
    {
      assert r[0] != r[i + 1];
    }
  }

  lemma RowDistinct(next: map<int, int>, prev: map<int, int>, s: seq<int>, count: nat)
    requires Row(next, prev, s, count)
    ensures Distinct(s) && HEAD !in s
  {
    ConsDistinct(HEAD, s);
  }

  function Linked(next: map<int, int>, prev: map<int, int>, t: int): bool {
    t in next && t in prev
  }

  /** rt_list_remove, also for a node that is in no list. */
  function RemovedNext(next: map<int, int>, prev: map<int, int>, t: int): map<int, int>
    requires Linked(next, prev, t)
  {
    next[prev[t] := next[t]][t := t]
  }

  function RemovedPrev(next: map<int, int>, prev: map<int, int>, t: int): map<int, int>
    requires Linked(next, prev, t)
  {
    prev[next[t] := prev[t]][t := t]
  }

  lemma RowUnlinkRing(next: map<int, int>, prev: map<int, int>, s: seq<int>, count: nat, k: nat)
    requires Row(next, prev, s, count) && k < |s|
    ensures Linked(next, prev, s[k])
    ensures Ring(RemovedNext(next, prev, s[k]), RemovedPrev(next, prev, s[k]), [HEAD] + Without(s, k))
  {
    hide Ring;
    var r, t, w := [HEAD] + s, s[k], Without(s, k);
    Neighbours(next, prev, s, count, k);
    RowDistinct(next, prev, s, count);
    RingRemove(next, prev, r, k + 1);
    assert Without(r, k + 1) == [HEAD] + w;
    WithoutMember(s, k, t);
    RingDetach(next[prev[t] := next[t]], prev[next[t] := prev[t]], [HEAD] + w, t);
  }

  /** Letting a node that is not in the ring point to itself. */
  lemma RingDetach(next: map<int, int>, prev: map<int, int>, s: seq<int>, t: int)
    requires Ring(next, prev, s) && t !in s
    ensures Ring(next[t := t], prev[t := t], s)
  {
    RingFrame(next, prev, next[t := t], prev[t := t], s);
  }

  lemma RowUnlink(next: map<int, int>, prev: map<int, int>, s: seq<int>, count: nat, k: nat)
    requires Row(next, prev, s, count) && k < |s|
    ensures Linked(next, prev, s[k])
    ensures Row(RemovedNext(next, prev, s[k]), RemovedPrev(next, prev, s[k]), Without(s, k), count)
  {
    hide Ring;
    RowDistinct(next, prev, s, count);
    RowUnlinkRing(next, prev, s, count, k);
    Neighbours(next, prev, s, count, k);
    Others(next, prev, s, count, k);
    forall x
      ensures x in Without(s, k) <==> x in s && x != s[k]
    {
      WithoutMember(s, k, x);
    }
  }

  /** Unlinking touches only the node, its neighbours in the row, and the head. */
  lemma Others(next: map<int, int>, prev: map<int, int>, s: seq<int>, count: nat, k: nat)
    requires Row(next, prev, s, count) && k < |s| && Linked(next, prev, s[k])
    requires (next[s[k]] in s || next[s[k]] == HEAD) && (prev[s[k]] in s || prev[s[k]] == HEAD)
    ensures forall x :: 0 <= x < count && x !in s ==> RemovedNext(next, prev, s[k])[x] == x && RemovedPrev(next, prev, s[k])[x] == x
  {}

  lemma RowRemove(next: map<int, int>, prev: map<int, int>, s: seq<int>, count: nat, t: int)
    requires Row(next, prev, s, count) && 0 <= t < count
    ensures Row(RemovedNext(next, prev, t), RemovedPrev(next, prev, t), Unlisted(s, t), count)
  {
    if t in s {
      RowUnlink(next, prev, s, count, IndexOf(s, t));
    } else {
      assert RemovedNext(next, prev, t) == next && RemovedPrev(next, prev, t) == prev;
    }
  }

  lemma Neighbours(next: map<int, int>, prev: map<int, int>, s: seq<int>, count: nat, k: nat)
    requires Row(next, prev, s, count) && k < |s|
    ensures s[k] in next && (next[s[k]] in s || next[s[k]] == HEAD)
    ensures s[k] in prev && (prev[s[k]] in s || prev[s[k]] == HEAD)
  {
    var r := [HEAD] + s;
    assert r[k + 1] == s[k];
    RingPrev(next, prev, r, k + 1);
    RingNext(next, prev, r, k + 1);
  }

  /** rt_list_insert_after(l, t). */
  function InsertedNext(next: map<int, int>, l: int, t: int): map<int, int>
    requires l in next
  {
    next[t := next[l]][l := t]
  }

  function InsertedPrev(next: map<int, int>, prev: map<int, int>, l: int, t: int): map<int, int>
    requires l in next
  {
    prev[next[l] := t][t := l]
  }

  /** Node number k of the row counted from the head. */
  function NodeAt(s: seq<int>, k: nat): int
    requires k <= |s|
  {
    if k == 0 then HEAD else s[k - 1]
  }

  lemma RowInsert(next: map<int, int>, prev: map<int, int>, s: seq<int>, count: nat, k: nat, t: int)
    requires Row(next, prev, s, count) && 0 <= t < count && t !in s && k <= |s|
    ensures NodeAt(s, k) in next
    ensures Row(InsertedNext(next, NodeAt(s, k), t), InsertedPrev(next, prev, NodeAt(s, k), t), s[..k] + [t] + s[k..], count)
  {
    hide Ring;
    var r, l, s' := [HEAD] + s, NodeAt(s, k), s[..k] + [t] + s[k..];
    assert r[k] == l;
    assert t !in r;
    RingInsert(next, prev, r, k, t);
    assert Inserted(r, k, t) == [HEAD] + s';
    RingNext(next, prev, r, k);
    assert next[l] != t;
    assert prev[t := l][next[l] := t] == prev[next[l] := t][t := l];
    assert s == s[..k] + s[k..];
    forall x ensures x in s' <==> x == t || x in s {}
  }
}

module Timer {
  import opened Rings
  import opened TimerOrder
  import opened TimerRows
  import opened TimerRuns

  type Tick = x: int | 0 <= x < 0x1_0000_0000

  const TICK_MAX: Tick := 0xffff_ffff

  function Wrap(x: int): Tick { x % 0x1_0000_0000 }

  /** The C expression a - b on rt_tick_t. */
  function Minus(a: Tick, b: Tick): Tick { Wrap(a as int - b as int) }

  lemma WrapShift(x: int, k: int)
    ensures Wrap(x - k * 0x1_0000_0000) == Wrap(x)
  {}

  lemma WrapSplit(x: int)
    ensures x == Wrap(x) as int + x / 0x1_0000_0000 * 0x1_0000_0000
  {}

  lemma WrapAdd(x: int, d: int)
    ensures Wrap(Wrap(x) as int + d) == Wrap(x + d)
  {
    hide Wrap;
    WrapSplit(x);
    WrapShift(x + d, x / 0x1_0000_0000);
  }

  lemma WrapMinus(x: int, y: int)
    ensures Minus(Wrap(x), Wrap(y)) == Wrap(x - y)
  {
    hide Wrap;
    WrapSplit(y);
    WrapAdd(x, -(Wrap(y) as int));
    WrapShift(x - Wrap(y) as int, y / 0x1_0000_0000);
  }

  lemma WrapSmall(x: int)
    requires -HALF <= x < HALF
    ensures Wrap(x) == 0 <==> x == 0
    ensures Wrap(x) < HALF <==> x >= 0
  {
    if x < 0 { WrapShift(x, -1); }
  }

  lemma WrapSame(x: int)
    requires 0 <= x < 0x1_0000_0000
    ensures Wrap(x) as int == x
  {}

  /** Inside the window the wrapped difference decides the true order. */
  lemma WindowCompare(x: int, y: int)
    requires -HALF <= x - y < HALF
    ensures Minus(Wrap(x), Wrap(y)) == 0 <==> x == y
    ensures Minus(Wrap(x), Wrap(y)) < HALF <==> x >= y
  {
    WrapMinus(x, y);
    WrapSmall(x - y);
  }

  /** The search stops at a timer with deadline x exactly if that is later, by less than half the range. */
  lemma SearchStops(x: int, y: int)
    requires 0 <= x - y < 0x1_0000_0000
    ensures Minus(Wrap(x), Wrap(y)) != 0 && Minus(Wrap(x), Wrap(y)) < HALF <==> 0 < x - y < HALF
  {
    hide Minus, Wrap;
    WrapMinus(x, y);
    WrapSame(x - y);
  }

  /** An initial tick that leaves less room than slack is too long: the search passes over the timer, and puts one
      that is inserted slack ticks past its deadline behind it. */
  lemma SlackIsNeeded(now: int, slack: nat)
    requires slack < HALF
    ensures Minus(Wrap(now + HALF - slack), Wrap(now - slack)) == HALF
  {
    hide Minus, Wrap;
    WrapMinus(now + HALF - slack, now - slack);
    WrapSame(HALF);
  }

  // ---- all rows ----

  type Links = seq<map<int, int>>

  /** Every row is a sorted ring, and every upper row lies within the row below. */
  ghost predicate RowsGood(next: Links, prev: Links, rows: seq<seq<int>>, keys: Keys, count: nat) {
    && |next| == |prev| == |rows| > 0
    && (forall l :: 0 <= l < |rows| ==> Row(next[l], prev[l], rows[l], count))
    && (forall l :: 0 <= l < |rows| ==> Sorted(rows[l], keys))
    && forall l :: 0 < l < |rows| ==> Within(rows[l - 1], rows[l])
  }

  function Bottom(rows: seq<seq<int>>): seq<int>
    requires |rows| > 0
  {
    rows[|rows| - 1]
  }

  lemma {:induction false} WithinBottom(next: Links, prev: Links, rows: seq<seq<int>>, keys: Keys, count: nat, l: nat)
    requires RowsGood(next, prev, rows, keys, count) && l < |rows|
    ensures Within(rows[l], Bottom(rows))
    decreases |rows| - l
  {
    if l + 1 < |rows| {
      WithinBottom(next, prev, rows, keys, count, l + 1);
      assert Within(rows[l + 1 - 1], rows[l + 1]);
    }
  }

  /** Every upper row is a subsequence of the row below. */
  lemma UpperRowIsSubsequence(next: Links, prev: Links, rows: seq<seq<int>>, keys: Keys, count: nat, l: nat)
    requires RowsGood(next, prev, rows, keys, count) && 0 < l < |rows|
    ensures Subsequence(rows[l - 1], rows[l])
  {
    SortedWithinIsSubsequence(rows[l - 1], rows[l], keys);
  }

  ghost function UnlistedRows(rows: seq<seq<int>>, t: int): seq<seq<int>> {
    seq(|rows|, l requires 0 <= l < |rows| => Unlisted(rows[l], t))
  }

  lemma UnlistedRowsGood(next: Links, prev: Links, rows: seq<seq<int>>, keys: Keys, count: nat, t: int, next': Links, prev': Links, keys': Keys)
    requires RowsGood(next, prev, rows, keys, count) && |next'| == |prev'| == |rows|
    requires forall l :: 0 <= l < |rows| ==> Row(next'[l], prev'[l], UnlistedRows(rows, t)[l], count)
    requires forall x :: x in Bottom(rows) && x != t && x in keys ==> x in keys' && keys'[x] == keys[x]
    ensures RowsGood(next', prev', UnlistedRows(rows, t), keys', count)
    ensures forall l :: 0 <= l < |rows| ==> t !in UnlistedRows(rows, t)[l]
  {
    var rows' := UnlistedRows(rows, t);
    forall l | 0 <= l < |rows|
      ensures Sorted(rows'[l], keys') && t !in rows'[l]
    {
      WithinBottom(next, prev, rows, keys, count, l);
      WithoutSorted(rows[l], t, keys, keys');
      UnlistedMembers(rows[l], t, keys);
    }
    forall l | 0 < l < |rows|
      ensures Within(rows'[l - 1], rows'[l])
    {
      UnlistedMembers(rows[l], t, keys);
      UnlistedMembers(rows[l - 1], t, keys);
    }
  }

  /** The lowest up rows get t, the others stay. */
  ghost function InsertedRows(rows: seq<seq<int>>, keys: Keys, t: int, d: int, up: nat): seq<seq<int>>
    requires forall l :: 0 <= l < |rows| ==> Sorted(rows[l], keys)
  {
    seq(|rows|, l requires 0 <= l < |rows| && Sorted(rows[l], keys) => if l >= |rows| - up then StableInsert(rows[l], t, keys, d) else rows[l])
  }

  lemma InsertedRowsMembers(next: Links, prev: Links, rows: seq<seq<int>>, keys: Keys, count: nat, t: int, d: int, up: nat)
    requires RowsGood(next, prev, rows, keys, count)
    requires forall l :: 0 <= l < |rows| ==> t !in rows[l]
    ensures |InsertedRows(rows, keys, t, d, up)| == |rows|
    ensures forall l :: 0 <= l < |rows| ==> (t in InsertedRows(rows, keys, t, d, up)[l] <==> l >= |rows| - up)
  {
    hide StableInsert;
    forall l | 0 <= l < |rows|
      ensures t in InsertedRows(rows, keys, t, d, up)[l] <==> l >= |rows| - up
    {
      assert Sorted(rows[l], keys);
      InsertMembers(rows[l], t, keys, d, t);
    }
  }

  lemma InsertedRowsGood(next: Links, prev: Links, rows: seq<seq<int>>, keys: Keys, count: nat, t: int, key: Key, up: nat, next': Links, prev': Links)
    requires RowsGood(next, prev, rows, keys, count) && |next'| == |prev'| == |rows|
    requires forall l :: 0 <= l < |rows| ==> Row(next'[l], prev'[l], InsertedRows(rows, keys, t, key.deadline, up)[l], count)
    requires forall l :: 0 <= l < |rows| ==> t !in rows[l]
    requires forall x :: x in Bottom(rows) && x in keys ==> keys[x].start < key.start
    ensures RowsGood(next', prev', InsertedRows(rows, keys, t, key.deadline, up), keys[t := key], count)
  {
    hide Row, StableInsert;
    var rows' := InsertedRows(rows, keys, t, key.deadline, up);
    forall l | 0 <= l < |rows|
      ensures Sorted(rows'[l], keys[t := key])
    {
      WithinBottom(next, prev, rows, keys, count, l);
      forall i | 0 <= i < |rows[l]|
        ensures keys[rows[l][i]].start < key.start
      {
        var x := rows[l][i];
        assert x in rows[l];
        assert x in Bottom(rows);
      }
      InsertSorted(rows[l], t, keys, key.deadline, key.start);
      WithoutSorted(rows[l], t, keys, keys[t := key]);
    }
    forall l | 0 < l < |rows|
      ensures Within(rows'[l - 1], rows'[l])
    {
      assert Sorted(rows[l - 1], keys) && Sorted(rows[l], keys);
      forall x
        ensures x in StableInsert(rows[l - 1], t, keys, key.deadline) <==> x == t || x in rows[l - 1]
        ensures x in StableInsert(rows[l], t, keys, key.deadline) <==> x == t || x in rows[l]
      {
        InsertMembers(rows[l - 1], t, keys, key.deadline, x);
        InsertMembers(rows[l], t, keys, key.deadline, x);
      }
    }
  }

  // ---- how high a timer climbs ----

  /** The low digits of the start counter in base skip decide in how many rows a timer is put. */
  ghost predicate Climbs(nr: nat, skip: nat, up: nat)
    requires skip > 0
    decreases up
  {
    up == 0 || (nr % skip == 0 && Climbs(nr / skip, skip, up - 1))
  }

  /** Digits below position i are all zero when the timer climbs i rows. */
  lemma {:induction false} ClimbsLess(nr: nat, skip: nat, up: nat, i: nat)
    requires skip > 0 && Climbs(nr, skip, up) && i <= up
    ensures Climbs(nr, skip, i)
    decreases up
  {
    if i > 0 { ClimbsLess(nr / skip, skip, up - 1, i - 1); }
  }
}
