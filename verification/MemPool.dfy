/** The statements of rt_mp_init, rt_mp_alloc and rt_mp_free on the words in front of the blocks. */
module PoolCode {
  import opened Rings
  import opened Chains
  import opened IpcLists
  import opened SlabSizes
  import M = PoolModel

  const ALIGN := 4
  const WORD := 4     // sizeof(rt_uint8_t *)
  const POOL := -2    // in the word of a block that was given away: the address of the pool

  /** The blocks from i on, in address order. */
  function From(i: nat, n: nat): seq<int>
    requires i <= n
  {
    seq(n - i, k => i + k)
  }

  lemma FromStep(i: nat, n: nat)
    requires i < n
    ensures From(i, n) == [i] + From(i + 1, n)
  {}

  /** Links that lead from each block to the next. */
  lemma {:induction false} UpChain(next: map<int, int>, i: nat, n: nat)
    requires i <= n && forall b :: i <= b < n ==> b in next && next[b] == if b + 1 < n then b + 1 else NULL
    ensures Chain(next, if i < n then i else NULL, From(i, n))
    decreases n - i
  {
    hide Chain, From;
    if i < n {
      UpChain(next, i + 1, n);
      FromStep(i, n);
      ChainCons(next, i, From(i + 1, n));
    } else {
      EmptyChain(next, n);
    }
  }

  lemma EmptyChain(next: map<int, int>, n: nat)
    ensures Chain(next, NULL, From(n, n))
  {}

  class MemPool {
    const blockTotal: nat             // block_total_count
    const blockSize: nat
    var next: map<int, int>           // the word in front of every block
    var blockList: int
    var freeCount: int                // block_free_count
    var waiters: seq<int>             // suspend_thread
    var suspendCount: int             // suspend_thread_count
    var phases: seq<M.Phase>
    ghost var free: seq<int>
    ghost var held: set<int>
    ghost var expired: nat

    ghost function View(): M.Pool
      reads this
    {
      M.Pool(blockTotal, free, held, waiters, suspendCount, expired, phases)
    }

    /** The list runs through the free blocks, the others lead back to the pool. */
    ghost predicate Valid()
      reads this
    {
      && M.Good(View()) && Chain(next, blockList, free) && freeCount == |free|
      && forall b :: b in held ==> b in next && next[b] == POOL
    }

    /** rt_mp_init of a pool that has room for a block. */
    constructor (size: nat, block: nat, threads: nat)
      requires RoundUp(block, ALIGN) + WORD <= size / ALIGN * ALIGN
      ensures Valid() && View() == M.Init(blockTotal, threads)
      ensures blockSize == RoundUp(block, ALIGN) && blockTotal == size / ALIGN * ALIGN / (blockSize + WORD) > 0
    {
      var bs := RoundUp(block, ALIGN);
      var total := size / ALIGN * ALIGN / (bs + WORD);
      AtLeastOne(size / ALIGN * ALIGN, bs + WORD);
      var links: map<int, int> := map[];
      var offset := 0;
      while offset < total
        invariant 0 <= offset <= total && forall b :: 0 <= b < offset ==> b in links && links[b] == b + 1
      {
        links := links[offset := offset + 1];
        offset := offset + 1;
      }
      links := links[offset - 1 := NULL];
      UpChain(links, 0, total);
      blockTotal, blockSize, next, blockList, freeCount := total, bs, links, 0, total;
      waiters, suspendCount := [], 0;
      phases := seq(threads, t => M.Outside);
      free, held, expired := M.Up(total), {}, 0;
      new;
      assert M.Good(M.Init(blockTotal, threads));
      assert From(0, blockTotal) == free;
    }

    /** One round of the loop of rt_mp_alloc. */
    method Attempt(t: int, time: int) returns (out: M.Outcome)
      requires Valid() && M.Thread(View(), t) && (phases[t].Outside? || phases[t].Woken?)
      modifies this
      ensures Valid() && M.Result(View(), out) == M.Attempt(old(View()), t, time)
    {
      hide M.Good, Chain;
      M.AttemptGood(View(), t, time);
      ChainHead(next, blockList, free);
      if freeCount == 0 {
        if time == 0 {
          phases := phases[t := M.Outside];
          return M.Refused(t);
        }
        phases := phases[t := M.Waiting(time)];
        waiters := [t] + waiters;
        suspendCount := suspendCount + 1;
        return M.Blocked(t);
      }
      FirstFree(View());
      freeCount := freeCount - 1;
      var b := blockList;
      blockList := next[b];
      ChainFrame(next, next[b], free[1..], b, POOL);
      next := next[b := POOL];
      phases := phases[t := M.Outside];
      free, held := free[1..], held + {b};
      return M.Given(t, b);
    }

    /** rt_mp_alloc up to its return or its suspension. */
    method Alloc(t: int, time: int) returns (out: M.Outcome)
      requires Valid() && M.Enabled(View(), M.Alloc(t, time))
      modifies this
      ensures Valid() && M.Result(View(), out) == M.Step(old(View()), M.Alloc(t, time))
    {
      hide M.Good, Chain, M.Attempt;
      out := Attempt(t, time);
    }

    /** A woken thread returns its error or tries again with the time that is left. */
    method Resume(t: int, elapsed: nat) returns (out: M.Outcome)
      requires Valid() && M.Enabled(View(), M.Resume(t, elapsed))
      modifies this
      ensures Valid() && M.Result(View(), out) == M.Step(old(View()), M.Resume(t, elapsed))
    {
      hide M.Good, Chain, M.Attempt;
      M.StepGood(View(), M.Resume(t, elapsed));
      if phases[t].Late? {
        phases := phases[t := M.Outside];
        return M.TimedOut(t);
      }
      out := Attempt(t, Remaining(phases[t].time, elapsed));
    }

    /** rt_mp_free: the word of the block leads to the pool; the block goes to the front of the list, and one thread is woken. */
    method Free(b: int) returns (out: M.Outcome)
      requires Valid() && M.Enabled(View(), M.Free(b))
      modifies this
      ensures old(b in next && next[b] == POOL)
      ensures Valid() && M.Result(View(), out) == M.Step(old(View()), M.Free(b))
    {
      hide M.Good, Chain;
      M.StepGood(View(), M.Free(b));
      NotFree(View(), b);
      if waiters != [] { FirstWaits(View()); }
      freeCount := freeCount + 1;
      ChainFrame(next, blockList, free, b, blockList);
      next := next[b := blockList];
      ChainCons(next, b, free);
      blockList := b;
      free, held := [b] + free, held - {b};
      if suspendCount > 0 {
        var t := waiters[0];
        waiters := waiters[1..];
        phases := phases[t := M.Woken(phases[t].time)];
        suspendCount := suspendCount - 1;
      }
      return M.Freed(b);
    }

    /** The thread timer: the list loses the thread, the count stays. */
    method Expire(t: int) returns (out: M.Outcome)
      requires Valid() && M.Enabled(View(), M.Expire(t))
      modifies this
      ensures Valid() && M.Result(View(), out) == M.Step(old(View()), M.Expire(t))
    {
      hide M.Good, Chain, Unlisted;
      M.StepGood(View(), M.Expire(t));
      waiters := Unlisted(waiters, t);
      phases := phases[t := M.Late];
      expired := expired + 1;
      return M.Expired(t);
    }

    /** Any run of sections. */
    method RunAll(acts: seq<M.Action>) returns (log: seq<M.Outcome>)
      requires Valid() && M.Possible(View(), acts)
      modifies this
      ensures Valid() && M.History(View(), log) == M.Run(old(View()), acts)
      decreases |acts|
    {
      hide M.Good, M.Step, Chain;
      log := [];
      if acts != [] {
        var out;
        match acts[0] {
          case Alloc(t, time) => out := Alloc(t, time);
          case Free(b) => out := Free(b);
          case Resume(t, elapsed) => out := Resume(t, elapsed);
          case Expire(t) => out := Expire(t);
        }
        var rest := RunAll(acts[1..]);
        log := [out] + rest;
      }
    }
  }

  lemma FirstFree(s: M.Pool)
    requires M.Good(s) && s.free != []
    ensures s.free[0] !in s.free[1..] && s.free[0] !in s.held && 0 <= s.free[0] < s.total
  {
    hide M.Listed, M.Retrying;
    TailDistinct(s.free);
    var b := s.free[0];
    assert b in s.free;
    assert 0 <= b < s.total <==> b in s.free || b in s.held;
  }

  lemma NotFree(s: M.Pool, b: int)
    requires M.Good(s) && b in s.held
    ensures b !in s.free && 0 <= b < s.total
  {}

  lemma FirstWaits(s: M.Pool)
    requires M.Good(s) && s.waiters != []
    ensures M.Thread(s, s.waiters[0]) && s.phases[s.waiters[0]].Waiting?
  {
    M.HeadWaits(s);
  }

  lemma AtLeastOne(size: nat, n: nat)
    requires 0 < n <= size
    ensures size / n > 0
  {}

  /** Where the payload of block b lies, counted from the start of the pool. */
  function BlockAddr(size: nat, b: nat): nat { b * (size + WORD) + WORD }

  /** The blocks lie in the pool and do not overlap. */
  lemma BlocksApart(pool: nat, size: nat, b: nat, c: nat)
    requires b < c < pool / (size + WORD)
    ensures BlockAddr(size, b) + size <= BlockAddr(size, c) - WORD && BlockAddr(size, c) + size <= pool
  {
    var n := size + WORD;
    var total := pool / n;
    ChunkEnd(b, c, n);
    ChunkEnd(c, total, n);
    DivTimes(pool, n);
    assert b * n + n <= c * n && c * n + n <= total * n <= pool;
    assert BlockAddr(size, b) == b * n + WORD && BlockAddr(size, c) == c * n + WORD;
  }
}
