/** Blocks of a heap in address order. */
module Blocks {

  datatype Block = Block(addr: int, used: bool)

  function Addrs(b: seq<Block>): set<int> { set i | 0 <= i < |b| :: b[i].addr }

  function Find(b: seq<Block>, a: int): (i: nat)
    requires a in Addrs(b)
    ensures i < |b| && b[i].addr == a
  {
    if b[0].addr == a then 0
    else
      assert a in Addrs(b[1..]) by {
        var j :| 0 <= j < |b| && b[j].addr == a;
        assert b[1..][j - 1].addr == a;
      }
      1 + Find(b[1..], a)
  }

  /** No two neighbours are both free. */
  ghost predicate Coalesced(b: seq<Block>) {
    forall i :: 0 <= i < |b| - 1 ==> b[i].used || b[i + 1].used
  }

  /** Replace blocks i to j - 1. */
  function Splice(b: seq<Block>, i: nat, j: nat, mid: seq<Block>): seq<Block>
    requires i <= j <= |b|
  {
    b[..i] + mid + b[j..]
  }

  lemma SpliceByParts(b: seq<Block>, i: nat, j: nat, mid: seq<Block>)
    requires i < j < |b|
    ensures b == b[..i] + b[i..j] + [b[j]] + b[j + 1..]
    ensures Splice(b, i, j, mid) == b[..i] + mid + [b[j]] + b[j + 1..]
  {}
}
