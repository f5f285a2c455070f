/** Suspended threads of an IPC object, and how a blocking operation's wake-ups are counted (ipc.c). */
module IpcLists {
  import opened Rings

  /** RT_IPC_FLAG_FIFO and RT_IPC_FLAG_PRIO. */
  datatype Order = Fifo | Prio

  /** Smaller numbers are more urgent. */
  ghost predicate Urgent(s: seq<int>, prio: seq<int>) {
    && (forall i :: 0 <= i < |s| ==> 0 <= s[i] < |prio|)
    && forall i, j :: 0 <= i < j < |s| ==> prio[s[i]] <= prio[s[j]]
  }

  predicate Threads(s: seq<int>, n: nat) {
    forall i :: 0 <= i < |s| ==> 0 <= s[i] < n
  }

  /** Where rt_ipc_list_suspend puts a thread of priority p: before the first one that is less urgent. */
  ghost function Place(order: Order, s: seq<int>, prio: seq<int>, p: int): (k: nat)
    requires Threads(s, |prio|)
    ensures k <= |s|
  {
    if order == Fifo then |s|
    else if s == [] || p < prio[s[0]] then 0
    else 1 + Place(order, s[1..], prio, p)
  }

  ghost function Suspended(order: Order, s: seq<int>, prio: seq<int>, t: int): (r: seq<int>)
    requires Threads(s, |prio|) && 0 <= t < |prio|
    ensures |r| == |s| + 1 && Threads(r, |prio|)
  {
    var k := Place(order, s, prio, prio[t]);
    s[..k] + [t] + s[k..]
  }

  lemma SuspendedMembers(order: Order, s: seq<int>, prio: seq<int>, t: int)
    requires Threads(s, |prio|) && 0 <= t < |prio|
    ensures forall x :: x in Suspended(order, s, prio, t) <==> x in s || x == t
    ensures Distinct(s) && t !in s ==> Distinct(Suspended(order, s, prio, t))
  {
    var k, r := Place(order, s, prio, prio[t]), Suspended(order, s, prio, t);
    assert s == s[..k] + s[k..];
    assert forall i :: 0 <= i < |r| ==> r[i] == if i < k then s[i] else if i == k then t else s[i - 1];
  }

  lemma {:induction false} PlaceSplits(s: seq<int>, prio: seq<int>, p: int)
    requires Urgent(s, prio)
    ensures forall i :: 0 <= i < Place(Prio, s, prio, p) ==> prio[s[i]] <= p
    ensures forall i :: Place(Prio, s, prio, p) <= i < |s| ==> p < prio[s[i]]
  {
    if s != [] && prio[s[0]] <= p {
      PlaceSplits(s[1..], prio, p);
      var k := Place(Prio, s[1..], prio, p);
      forall i | 0 <= i < |s|
        ensures i < k + 1 ==> prio[s[i]] <= p
        ensures i >= k + 1 ==> p < prio[s[i]]
      {
        if i > 0 { assert s[1..][i - 1] == s[i]; }
      }
    }
  }

  /** With RT_IPC_FLAG_PRIO the list stays in order of urgency. */
  lemma SuspendedUrgent(s: seq<int>, prio: seq<int>, t: int)
    requires Urgent(s, prio) && 0 <= t < |prio|
    ensures Urgent(Suspended(Prio, s, prio, t), prio)
  {
    var k, r := Place(Prio, s, prio, prio[t]), Suspended(Prio, s, prio, t);
    PlaceSplits(s, prio, prio[t]);
    assert forall i :: 0 <= i < |r| ==> r[i] == if i < k then s[i] else if i == k then t else s[i - 1];
  }

  /** rt_ipc_list_suspend: the loop over the list. */
  method Suspend(order: Order, s: seq<int>, prio: seq<int>, t: int) returns (r: seq<int>)
    requires Threads(s, |prio|) && 0 <= t < |prio|
    ensures r == Suspended(order, s, prio, t)
  {
    match order
    case Fifo =>
      r := s + [t];
    case Prio =>
      var n := 0;
      while n < |s| && prio[t] >= prio[s[n]]
        invariant n <= |s| && n + Place(Prio, s[n..], prio, prio[t]) == Place(Prio, s, prio, prio[t])
      {
        assert s[n..][1..] == s[n + 1..];
        n := n + 1;
      }
      r := s[..n] + [t] + s[n..];
  }

  lemma WithoutUrgent(s: seq<int>, prio: seq<int>, k: nat)
    requires Threads(s, |prio|) && k < |s|
    ensures Threads(Without(s, k), |prio|)
    ensures Urgent(s, prio) ==> Urgent(Without(s, k), prio)
  {
    var r := Without(s, k);
    assert forall i :: 0 <= i < |r| ==> r[i] == if i < k then s[i] else s[i + 1];
  }

  lemma UnlistedUrgent(s: seq<int>, prio: seq<int>, t: int)
    requires Threads(s, |prio|)
    ensures Threads(Unlisted(s, t), |prio|)
    ensures Urgent(s, prio) ==> Urgent(Unlisted(s, t), prio)
  {
    hide Urgent;
    if t in s { WithoutUrgent(s, prio, IndexOf(s, t)); }
  }

  /** The waiting time that is left, in the source's 32-bit arithmetic. */
  function Remaining(timeout: int, elapsed: nat): int {
    if timeout > 0 then
      var r := (timeout - elapsed + 0x8000_0000) % 0x1_0000_0000 - 0x8000_0000;
      if r < 0 then 0 else r
    else
      timeout
  }

  /** What is left is the difference, or nothing, exactly until the elapsed time exceeds the waiting time by more than half
      the range of the tick; a thread that waits for ever goes on waiting for ever. */
  lemma RemainingTime(timeout: int, elapsed: nat)
    requires timeout < 0x8000_0000
    ensures timeout > 0 ==>
      (Remaining(timeout, elapsed) == (if elapsed < timeout then timeout - elapsed else 0) <==>
       elapsed < timeout || (elapsed - timeout) % 0x1_0000_0000 <= 0x8000_0000)
    ensures timeout <= 0 ==> Remaining(timeout, elapsed) == timeout
  {
    var d := elapsed - timeout;
    if timeout > 0 {
      if elapsed < timeout {
        assert Remaining(timeout, elapsed) == timeout - elapsed;
      } else {
        var q, m := d / 0x1_0000_0000, d % 0x1_0000_0000;
        assert 0x8000_0000 - d == 0x8000_0000 - m - q * 0x1_0000_0000;
        if m <= 0x8000_0000 {
          assert (0x8000_0000 - d) % 0x1_0000_0000 == 0x8000_0000 - m;
        } else {
          assert (0x8000_0000 - d) % 0x1_0000_0000 == 0x1_8000_0000 - m;
        }
      }
    }
  }

  // ---- what becomes of a list ----

  /** t comes in and the others keep their order: first in first out behind everybody, by priority behind those that are
      at least as urgent and in front of the others. */
  ghost predicate Joins(order: Order, s: seq<int>, r: seq<int>, prio: seq<int>, t: int)
    requires Threads(s, |prio|) && 0 <= t < |prio|
  {
    exists k: nat :: k <= |s| && r == s[..k] + [t] + s[k..] &&
      match order
      case Fifo => k == |s|
      case Prio =>
        && (forall i :: 0 <= i < k ==> prio[s[i]] <= prio[t])
        && (forall i :: k <= i < |s| ==> prio[t] < prio[s[i]])
  }

  /** t goes out and the others keep their order. */
  ghost predicate Leaves(s: seq<int>, r: seq<int>, t: int) {
    exists k: nat :: k < |s| && s[k] == t && r == s[..k] + s[k + 1..]
  }

  lemma SuspendedJoins(order: Order, s: seq<int>, prio: seq<int>, t: int)
    requires Threads(s, |prio|) && 0 <= t < |prio| && (order == Prio ==> Urgent(s, prio))
    ensures Joins(order, s, Suspended(order, s, prio, t), prio, t)
  {
    if order == Prio { PlaceSplits(s, prio, prio[t]); }
    assert Place(order, s, prio, prio[t]) <= |s|;
  }

  lemma UnlistedLeaves(s: seq<int>, t: int)
    requires t in s
    ensures Leaves(s, Unlisted(s, t), t)
  {
    assert s[IndexOf(s, t)] == t;
  }

  // ---- counting threads ----

  function CountIf<P>(s: seq<P>, f: P -> bool): nat {
    if s == [] then 0 else (if f(s[0]) then 1 else 0) + CountIf(s[1..], f)
  }

  function One(b: bool): nat { if b then 1 else 0 }

  lemma {:induction false} CountUpdate<P>(s: seq<P>, f: P -> bool, t: int, p: P)
    requires 0 <= t < |s|
    ensures CountIf(s[t := p], f) == CountIf(s, f) - One(f(s[t])) + One(f(p))
  {
    if t == 0 {
      assert s[t := p][1..] == s[1..];
    } else {
      assert s[t := p][1..] == s[1..][t - 1 := p];
      CountUpdate(s[1..], f, t - 1, p);
    }
  }

  lemma {:induction false} CountZero<P>(s: seq<P>, f: P -> bool)
    requires forall i :: 0 <= i < |s| ==> !f(s[i])
    ensures CountIf(s, f) == 0
  {
    if s != [] {
      assert forall i :: 0 <= i < |s| - 1 ==> s[1..][i] == s[i + 1];
      CountZero(s[1..], f);
    }
  }
}
