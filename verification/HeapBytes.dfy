/** The bytes of a heap: copying them, and what header writes do to them. */
module HeapBytes {
  import opened Integers

  /** n bytes from `from` in m are at `to` in m'. */
  ghost predicate SameBytes(m: seq<uint8>, m': seq<uint8>, from: int, to: int, n: int) {
    0 <= n && 0 <= from && from + n <= |m| && 0 <= to && to + n <= |m'| && m'[to..to + n] == m[from..from + n]
  }

  function Min(x: int, y: int): int { if x < y then x else y }

  /** rt_memcpy inside one heap. */
  method MemCopy(mem: array<uint8>, dst: int, src: int, n: int)
    requires 0 <= n && 0 <= src && src + n <= mem.Length && 0 <= dst && dst + n <= mem.Length
    requires src + n <= dst || dst + n <= src
    modifies mem
    ensures mem[dst..dst + n] == old(mem[src..src + n])
    ensures forall x :: 0 <= x < mem.Length && !(dst <= x < dst + n) ==> mem[x] == old(mem[x])
  {
    for k := 0 to n
      invariant forall x :: dst <= x < dst + k ==> mem[x] == old(mem[x - dst + src])
      invariant forall x :: 0 <= x < mem.Length && !(dst <= x < dst + k) ==> mem[x] == old(mem[x])
    {
      mem[dst + k] := mem[src + k];
    }
  }

  /** A header or a link is written over n bytes, whatever its bytes are. */
  method Overwrite(mem: array<uint8>, x: int, n: nat)
    requires 0 <= x && x + n <= mem.Length
    modifies mem
    ensures forall y :: 0 <= y < mem.Length && !(x <= y < x + n) ==> mem[y] == old(mem[y])
  {
    for k := 0 to n
      invariant forall y :: 0 <= y < mem.Length && !(x <= y < x + n) ==> mem[y] == old(mem[y])
    {
      mem[x + k] := *;
    }
  }
}
